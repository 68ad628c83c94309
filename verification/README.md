# Uploader error codes

A Dafny model of the uploader library's error-code translator
(`closure/goog/uploader/errorcode.js`):

- `apps.uploader.ErrorCode`, the nine string-valued uploader error codes, is the
  datatype `Uploader.ErrorCode`, with `Uploader.Value` giving each code's string.
- `mapErrorCode`, which turns a `goog.net.ErrorCode` into an uploader code, is
  `Uploader.MapErrorCode`.
- `getMessageFromCode`, which gives the user-facing message of a code, is
  `Uploader.GetMessageFromCode`. The seven `apps.uploader.ErrorMessage.MSG_UPLOADER_*`
  messages are constants holding their default English text.

`goog.net.ErrorCode` is defined outside the uploader. It is modelled as the datatype
`Net.ErrorCode`. That datatype has one constructor for each member the uploader
names, plus `Other`, which stands for all remaining members.

Both uploader functions are written as exhaustive `match` expressions. Each one has
a partner definition in the module `Switch`, which models how JavaScript runs a
`switch` whose clauses all `return`. The labels are tried in source order. The first
equal label wins. The `default` value is returned when no label is equal.
`case A: case B: return x;` becomes two cases that both return `x`. Lemmas prove that
each `match` agrees with its switch on every input. For messages, the switch is keyed
on the code's string, so `Uploader.MessageForValue` also covers the `default` branch
for strings that are not uploader codes.

Both operations are pure functions. Calling one twice on the same input therefore
gives the same result by construction.

## Model

| member | source | states |
|---|---|---|
| Uploader.Value | closure/goog/uploader/errorcode.js:21-29 | gives each code the string it is declared with; the contract also records that these nine literals happen to be non-empty runs of lower-case letters, which the enum itself does not promise |
| Uploader.ValueInjective | closure/goog/uploader/errorcode.js:20-30 | two codes have the same string only if they are the same code, so a switch on the string identifies the code |
| Switch.Select | closure/goog/uploader/errorcode.js:39-55 | a switch returns the value of the first case whose label equals the key, and the default value when no label equals it |
| Uploader.MapErrorCode | closure/goog/uploader/errorcode.js:38-56 | the translation is total and never yields SECURITY_ERROR, SERVER_REJECTED or SERVER_INVALID_RESPONSE |
| Uploader.MapErrorCodeIsSwitch | closure/goog/uploader/errorcode.js:38-56 | for every network code, the translation equals the switch over the source's case clauses (in source order) with default UNKNOWN_ERROR |
| Uploader.MapTransportFailures | closure/goog/uploader/errorcode.js:40-44 | a network code becomes NETWORK_ERROR if and only if it is HTTP_ERROR, OFFLINE, TIMEOUT or ACCESS_DENIED |
| Uploader.MapFileNotFound | closure/goog/uploader/errorcode.js:45-46 | a network code becomes IO_ERROR if and only if it is FILE_NOT_FOUND |
| Uploader.MapSharedNames | closure/goog/uploader/errorcode.js:47-52 | ABORT, EXCEPTION and NO_ERROR become the uploader codes of the same name, and no other network code becomes any of those three |
| Uploader.MapUnlisted | closure/goog/uploader/errorcode.js:53-54 | a network code becomes UNKNOWN_ERROR if and only if no case clause of the switch names it |
| Uploader.MapErrorCodeRange | closure/goog/uploader/errorcode.js:38-56 | the translation's range is exactly NO_ERROR, NETWORK_ERROR, IO_ERROR, ABORT, EXCEPTION and UNKNOWN_ERROR: each is produced by some network code, and no other code is |
| Uploader.GetMessageFromCode | closure/goog/uploader/errorcode.js:65-84 | every uploader code has a non-empty message |
| Uploader.MessageForValue | closure/goog/uploader/errorcode.js:81-82 | a string that is not the value of any uploader code gets "Unexpected error" |
| Uploader.MessageForValueOfCode | closure/goog/uploader/errorcode.js:65-84 | on the string of any code, the message switch over the source's case clauses gives the same message as the typed lookup |
| Uploader.SpecificMessages | closure/goog/uploader/errorcode.js:67-78 | "Canceled", "Lost connection to server", "Unable to read file", "Security error", "Server rejected" and "Server returned invalid response" are each shown for exactly one code: ABORT, NETWORK_ERROR, IO_ERROR, SECURITY_ERROR, SERVER_REJECTED and SERVER_INVALID_RESPONSE respectively |
| Uploader.UnexpectedMessage | closure/goog/uploader/errorcode.js:79-82 | "Unexpected error" is shown for UNKNOWN_ERROR, EXCEPTION and NO_ERROR, and for no other code |
| Uploader.MessageCollapsesOnlyUnexpected | closure/goog/uploader/errorcode.js:65-143 | two different codes share a message only when that message is "Unexpected error" |
| Uploader.MappedMessageRange | closure/goog/uploader/errorcode.js:38-84 | after translation, a network code's message is always "Canceled", "Lost connection to server", "Unable to read file" or "Unexpected error", and each of these four occurs |

## Left out

- Module registration (`goog.provide` / `goog.require`, errorcode.js:10-13) has no behaviour. It is not modelled.
- Localisation through `goog.getMsg` depends on an external message catalogue that is not part of this model. Each message is modelled as its literal default English text.
- The concrete values of `goog.net.ErrorCode` are defined elsewhere. `Net.ErrorCode` is abstract, with `Other` standing for every member the uploader does not name. Its numeric encoding is not assumed.
- `Net.ErrorCode` gives the eight named `goog.net.ErrorCode` members separate constructors, so it assumes their values are pairwise different. If two shared a value, the JavaScript `switch` would take the earlier clause for both; for example, TIMEOUT equal to ABORT would send ABORT to NETWORK_ERROR.
- `Net.Other` also stands for arguments that are not `goog.net.ErrorCode` members at all, such as `undefined` or a string; the `default` clause sends those to UNKNOWN_ERROR as well.
- `getMessageFromCode` can be called with a string that is not an uploader code. The typed `Uploader.GetMessageFromCode` cannot receive one. That `default` case is covered by `Uploader.MessageForValue` instead.
- `getMessageFromCode`'s `default` clause (errorcode.js:81) is also reached by arguments that are not strings. `Uploader.MessageForValue` takes only strings, so those arguments are not modelled; they would get "Unexpected error" too.
