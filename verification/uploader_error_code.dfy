/**
 Error codes of the uploader library (`apps.uploader.ErrorCode`), the
 translation from network error codes into them, and the user-facing message
 for each code (`apps.uploader.ErrorMessage`).
 */
module Uploader {

  import Net
  import Switch

  /** The nine uploader error codes. */
  datatype ErrorCode =
    | NoError                // no error has occurred
    | NetworkError
    | IoError                // file read error
    | SecurityError          // cross-domain security error
    | Abort                  // user abort
    | ServerRejected
    | ServerInvalidResponse
    | Exception              // applet exception or other unexpected error
    | UnknownError           // error of unknown source

  /** The string that represents each code at run time. */
  function Value(code: ErrorCode): (s: string)
    ensures |s| > 0
    ensures forall i :: 0 <= i < |s| ==> 'a' <= s[i] <= 'z'
  {
    match code
    case NoError => "noerror"
    case NetworkError => "networkerror"
    case IoError => "ioerror"
    case SecurityError => "securityerror"
    case Abort => "abort"
    case ServerRejected => "serverrejected"
    case ServerInvalidResponse => "serverinvalidresponse"
    case Exception => "exception"
    case UnknownError => "unknownerror"
  }

  /** No two codes share a string, so switching on the string identifies the code. */
  lemma ValueInjective(a: ErrorCode, b: ErrorCode)
    ensures Value(a) == Value(b) <==> a == b
  {
  }

  // ---------------------------------------------------------------------------
  // Translation from network error codes
  // ---------------------------------------------------------------------------

  /** The case clauses of the translation switch, in source order; the default is UnknownError. */
  const MapCases: seq<(Net.ErrorCode, ErrorCode)> := [
    (Net.HttpError, NetworkError),
    (Net.Offline, NetworkError),
    (Net.Timeout, NetworkError),
    (Net.AccessDenied, NetworkError),
    (Net.FileNotFound, IoError),
    (Net.Abort, Abort),
    (Net.Exception, Exception),
    (Net.NoError, NoError)
  ]

  /** The uploader code that reports a network error code. Never a security or server code. */
  function MapErrorCode(code: Net.ErrorCode): (r: ErrorCode)
    ensures r != SecurityError && r != ServerRejected && r != ServerInvalidResponse
  {
    match code
    case HttpError | Offline | Timeout | AccessDenied => NetworkError
    case FileNotFound => IoError
    case Abort => Abort
    case Exception => Exception
    case NoError => NoError
    case Other => UnknownError
  }

  /** The match agrees with the switch as JavaScript evaluates it, case by case. */
  lemma MapErrorCodeIsSwitch(code: Net.ErrorCode)
    ensures MapErrorCode(code) == Switch.Select(MapCases, code, UnknownError)
  {
    match code
    case HttpError => assert Switch.FirstCaseFor(MapCases, code, 0);
    case Offline => assert Switch.FirstCaseFor(MapCases, code, 1);
    case Timeout => assert Switch.FirstCaseFor(MapCases, code, 2);
    case AccessDenied => assert Switch.FirstCaseFor(MapCases, code, 3);
    case FileNotFound => assert Switch.FirstCaseFor(MapCases, code, 4);
    case Abort => assert Switch.FirstCaseFor(MapCases, code, 5);
    case Exception => assert Switch.FirstCaseFor(MapCases, code, 6);
    case NoError => assert Switch.FirstCaseFor(MapCases, code, 7);
    case Other => assert Switch.NoCaseFor(MapCases, code);
  }

  /** Exactly the four transport failures become NetworkError. */
  lemma MapTransportFailures(code: Net.ErrorCode)
    ensures MapErrorCode(code) == NetworkError <==>
              code in {Net.HttpError, Net.Offline, Net.Timeout, Net.AccessDenied}
  {
  }

  /** Exactly FileNotFound becomes IoError. */
  lemma MapFileNotFound(code: Net.ErrorCode)
    ensures MapErrorCode(code) == IoError <==> code == Net.FileNotFound
  {
  }

  /** Abort, Exception and NoError keep their names, and nothing else maps onto them. */
  lemma MapSharedNames(code: Net.ErrorCode)
    ensures MapErrorCode(code) == Abort <==> code == Net.Abort
    ensures MapErrorCode(code) == Exception <==> code == Net.Exception
    ensures MapErrorCode(code) == NoError <==> code == Net.NoError
  {
  }

  /** A code becomes UnknownError exactly when no case clause of the switch names it. */
  lemma MapUnlisted(code: Net.ErrorCode)
    ensures MapErrorCode(code) == UnknownError <==> Switch.NoCaseFor(MapCases, code)
  {
    if code != Net.Other {
      assert MapCases[MapCaseIndex(code)].0 == code;
    }
  }

  /** Position in MapCases of the clause naming a listed code. */
  function MapCaseIndex(code: Net.ErrorCode): (i: nat)
    requires code != Net.Other
    ensures i < |MapCases| && MapCases[i].0 == code
  {
    match code
    case HttpError => 0
    case Offline => 1
    case Timeout => 2
    case AccessDenied => 3
    case FileNotFound => 4
    case Abort => 5
    case Exception => 6
    case NoError => 7
  }

  /** The codes the translation can produce. */
  const MapRange: set<ErrorCode> := {NoError, NetworkError, IoError, Abort, Exception, UnknownError}

  /** The translation reaches every code of MapRange and no other. */
  lemma MapErrorCodeRange(c: ErrorCode)
    ensures (exists code :: MapErrorCode(code) == c) <==> c in MapRange
  {
    match c
    case NoError => assert MapErrorCode(Net.NoError) == c;
    case NetworkError => assert MapErrorCode(Net.HttpError) == c;
    case IoError => assert MapErrorCode(Net.FileNotFound) == c;
    case Abort => assert MapErrorCode(Net.Abort) == c;
    case Exception => assert MapErrorCode(Net.Exception) == c;
    case UnknownError => assert MapErrorCode(Net.Other) == c;
    case SecurityError =>
    case ServerRejected =>
    case ServerInvalidResponse =>
  }

  // ---------------------------------------------------------------------------
  // User-facing messages (default English text of each message)
  // ---------------------------------------------------------------------------

  const MsgCanceledError: string := "Canceled"
  const MsgNetworkError: string := "Lost connection to server"
  const MsgFileIoError: string := "Unable to read file"
  const MsgSecurityError: string := "Security error"
  const MsgServerRejected: string := "Server rejected"
  const MsgServerInvalidResponse: string := "Server returned invalid response"
  const MsgUnexpectedError: string := "Unexpected error"

  /** The message shown to the user for an uploader code. */
  function GetMessageFromCode(code: ErrorCode): (msg: string)
    ensures |msg| > 0
  {
    match code
    case Abort => MsgCanceledError
    case NetworkError => MsgNetworkError
    case IoError => MsgFileIoError
    case SecurityError => MsgSecurityError
    case ServerRejected => MsgServerRejected
    case ServerInvalidResponse => MsgServerInvalidResponse
    case UnknownError | Exception | NoError => MsgUnexpectedError
  }

  /** The case clauses of the message switch, keyed by code string; the default is the unexpected-error message. */
  const MessageCases: seq<(string, string)> := [
    (Value(Abort), MsgCanceledError),
    (Value(NetworkError), MsgNetworkError),
    (Value(IoError), MsgFileIoError),
    (Value(SecurityError), MsgSecurityError),
    (Value(ServerRejected), MsgServerRejected),
    (Value(ServerInvalidResponse), MsgServerInvalidResponse),
    (Value(UnknownError), MsgUnexpectedError),
    (Value(Exception), MsgUnexpectedError)
  ]

  /** The message lookup applied to an arbitrary string, as the untyped switch accepts one. */
  function MessageForValue(s: string): (msg: string)
    ensures (forall c :: Value(c) != s) ==> msg == MsgUnexpectedError
  {
    Switch.Select(MessageCases, s, MsgUnexpectedError)
  }

  /** On the string of a code, the switch yields the code's message. */
  lemma MessageForValueOfCode(code: ErrorCode)
    ensures MessageForValue(Value(code)) == GetMessageFromCode(code)
  {
    match code
    case Abort => assert Switch.FirstCaseFor(MessageCases, Value(code), 0);
    case NetworkError => assert Switch.FirstCaseFor(MessageCases, Value(code), 1);
    case IoError => assert Switch.FirstCaseFor(MessageCases, Value(code), 2);
    case SecurityError => assert Switch.FirstCaseFor(MessageCases, Value(code), 3);
    case ServerRejected => assert Switch.FirstCaseFor(MessageCases, Value(code), 4);
    case ServerInvalidResponse => assert Switch.FirstCaseFor(MessageCases, Value(code), 5);
    case UnknownError => assert Switch.FirstCaseFor(MessageCases, Value(code), 6);
    case Exception => assert Switch.FirstCaseFor(MessageCases, Value(code), 7);
    case NoError => assert Switch.NoCaseFor(MessageCases, Value(code));
  }

  /** Each of the six specific messages is shown for exactly one code. */
  lemma SpecificMessages(code: ErrorCode)
    ensures GetMessageFromCode(code) == MsgCanceledError <==> code == Abort
    ensures GetMessageFromCode(code) == MsgNetworkError <==> code == NetworkError
    ensures GetMessageFromCode(code) == MsgFileIoError <==> code == IoError
    ensures GetMessageFromCode(code) == MsgSecurityError <==> code == SecurityError
    ensures GetMessageFromCode(code) == MsgServerRejected <==> code == ServerRejected
    ensures GetMessageFromCode(code) == MsgServerInvalidResponse <==> code == ServerInvalidResponse
  {
  }

  /** UnknownError, Exception and NoError, and only they, share the unexpected-error message. */
  lemma UnexpectedMessage(code: ErrorCode)
    ensures GetMessageFromCode(code) == MsgUnexpectedError <==> code in {UnknownError, Exception, NoError}
  {
  }

  /** Two different codes share a message only when both get the unexpected-error message. */
  lemma MessageCollapsesOnlyUnexpected(a: ErrorCode, b: ErrorCode)
    requires a != b && GetMessageFromCode(a) == GetMessageFromCode(b)
    ensures GetMessageFromCode(a) == MsgUnexpectedError
  {
  }

  // ---------------------------------------------------------------------------
  // Translation followed by message lookup
  // ---------------------------------------------------------------------------

  /** The messages a network error code can end up as. */
  const NetworkMessages: set<string> := {MsgCanceledError, MsgNetworkError, MsgFileIoError, MsgUnexpectedError}

  /** A network error code is reported with one of four messages, and each of the four occurs. */
  lemma MappedMessageRange(msg: string)
    ensures (exists code :: GetMessageFromCode(MapErrorCode(code)) == msg) <==> msg in NetworkMessages
  {
    if msg == MsgCanceledError {
      assert GetMessageFromCode(MapErrorCode(Net.Abort)) == msg;
    } else if msg == MsgNetworkError {
      assert GetMessageFromCode(MapErrorCode(Net.HttpError)) == msg;
    } else if msg == MsgFileIoError {
      assert GetMessageFromCode(MapErrorCode(Net.FileNotFound)) == msg;
    } else if msg == MsgUnexpectedError {
      assert GetMessageFromCode(MapErrorCode(Net.Other)) == msg;
    }
  }
}
