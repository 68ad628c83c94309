/**
 The lower-level network error taxonomy `goog.net.ErrorCode` that the uploader
 translates from. It is defined outside the uploader; only the members the
 uploader names are distinguished, and `Other` stands for every remaining member.
 Its concrete (numeric) encoding is not modelled.
 */
module Net {

  datatype ErrorCode =
    | NoError
    | AccessDenied
    | FileNotFound
    | Exception
    | HttpError
    | Abort
    | Timeout
    | Offline
    | Other
}
