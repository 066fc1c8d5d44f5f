/** The enumerations shared by every engine (app/models/enums.py), and Option. */
module Enums {

  datatype Option<+T> = None | Some(value: T) {
    function GetOr(default: T): T {
      match this
      case Some(v) => v
      case None => default
    }
  }

  datatype SessionStatus = Created | InProgress | Processing | Verified | Rejected | InReview | Expired

  predicate Terminal(status: SessionStatus) {
    status.Verified? || status.Rejected? || status.InReview? || status.Expired?
  }

  datatype CheckStatus = Pending | Passed | Failed | NeedsReview | Skipped

  datatype Step = Document | Ocr | DocumentVerification | Selfie | Liveness | FaceMatch | Otp | Signature
}
