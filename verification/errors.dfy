/** The errors the backend's handlers throw, each documented with the message
    it is thrown with. */
module Errors {

  datatype Error =
      /** "Sender not found" */
    | SenderNotFound
      /** "Request already sent" */
    | RequestAlreadySent
      /** "Request not found" */
    | RequestNotFound
      /** "Request already handled" */
    | RequestAlreadyHandled
      /** "Unauthorized" */
    | Unauthorized
      /** "User not found" */
    | UserNotFound
      /** "Can only message accepted buddies" */
    | NotAcceptedBuddies
      /** "This email is already registered for the event." */
    | AlreadyRegistered
      /** Thrown by the storage layer when a patch or delete names a missing document. */
    | NonexistentDocument
      /** Thrown by `.unique()` when more than one document matches the index range. */
    | NotUnique
}
