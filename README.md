# go-plan9-auth: the factotum RPC client and the AuthInfo decoder

This project models the two pieces of logic in the `auth` package of
go-plan9-auth, a Go client of the Plan 9 key agent factotum(4):

- **The RPC client** (`auth/rpc.go`). `RPC.Call` frames a request as
  `verb ' ' arg` into the connection's fixed 4096-byte buffer. It refuses a
  request that would not fit. It reads the agent's reply into the same buffer
  and classifies it against the status tokens `rpcReplyStatuses`: a reply is
  either a token alone, or a token, a space and a payload. `callNeedKey` makes
  one `Call` and then hands a `badkey` (or `neekkey`) payload to the caller's
  `getKey` hook once. `GetUserPassword` issues `start` and then `read`, and
  splits the reply into a user and a password.
- **The AuthInfo decoder** (`auth/parse.go`). `gbytes` reads one field: a
  2-byte little-endian length, then that many bytes. `gstring` is `gbytes`
  read as a string. `convM2AI` threads the rest of the buffer through the four
  fields CallerID, ServerID, Cap and Secret.

Files:

- `bytes.dfy` (module `Bytes`): Go byte strings and slices. A Go `string`
  and the contents of a `[]byte` are both `Text = seq<Byte>`. A slice is
  `Option<seq<Byte>>`, with `None` standing for `nil`. The decoder's success
  and failure signals depend on the difference between nil and empty.
- `parse.dfy` (module `AuthInfo`): `GBytes`, `GString`, `Info` and
  `ConvM2AI`, with the encoder they invert (`Field`, `EncodeInfo`), the round
  trips, and the corrected decoder of the finding below.
- `rpc.dfy` (module `Rpc`): the class `RPC`, holding the agent and a
  4096-element `array<Byte>` buffer.
  - `Call` fills the buffer with successive copies and scans the token table
    in a loop, as the Go code does. It is proved equal to the pure
    specification `CallResult`, which is built on `Classify`.
  - `CallNeedKey` and `GetUserPassword` are proved equal to `NeedKeyResult`
    and `UserPassword`.
  - The lemmas state the properties of these specification functions.

The rpc file is the `Agent`: a function from the request bytes to the
outcome of one write followed by one read. That outcome is a write error, a
read error, or a reply of at most 4096 bytes. The `Agent` is a field of
`RPC`, standing for `rpc.f`. `GetUserPassword` gets the result of `NewRPC`
as a parameter: either the mounted agent or the error.

Where the code behaves differently from what the protocol is usually
described to do, the model follows the code:

- `callNeedKey` makes exactly one `Call` and never retries (auth/rpc.go:89-104).
- It compares the status with the misspelt literal `"neekkey"`, so a real
  `needkey` reply never reaches `getKey` (auth/rpc.go:95).
- The status `error` is returned as an ordinary status, not as a failure
  (auth/rpc.go:24-25).
- There is no "key not found" error. A `badkey` reply with no `getKey`
  returns the status with a nil error. `GetUserPassword` then fails with
  "rpc start failed: <nil>".
- A truncated but non-nil AuthInfo buffer is decoded, not rejected (see
  Findings).
- These files contain no handshake proxy and no `authinfo` call, so the
  model has none.

## Model

| member | source | states |
|---|---|---|
| `AuthInfo.GBytes` | auth/parse.go:5-15 | the remainder is nil exactly when the input is, and is always a suffix of the input; the field is nil exactly when the input is nil, shorter than 2 bytes, or declares more bytes than remain; a returned field re-encodes, with the remainder, to the input |
| `AuthInfo.GBytesNilOrShort` | auth/parse.go:6-8 | a nil input or one shorter than 2 bytes gives a nil field and the input back unchanged |
| `AuthInfo.Uint16LE` | auth/parse.go:9 | `binary.LittleEndian.Uint16`: the low byte of the length is `p[0]`, the high byte `p[1]`, and the length is below 65536 |
| `AuthInfo.GBytesLength` | auth/parse.go:9-14 | a length that fits splits the buffer into one encoded field and the rest, and gbytes returns exactly that field |
| `AuthInfo.GBytesOverlong` | auth/parse.go:10-12 | a declared length past the end gives a nil field and `p[2:]`: the prefix is consumed, the body is not |
| `AuthInfo.GBytesRoundTrip` | auth/parse.go:5-15 | `gbytes(le16(len f) ++ f ++ rest) == (f, rest)` for every field shorter than 65536 bytes |
| `AuthInfo.GString` | auth/parse.go:17-23 | the same remainder as `gbytes`; a nil field reads as the empty string, any other field as its bytes |
| `AuthInfo.GStringRoundTrip` | auth/parse.go:17-23 | `gstring` of an encoded field gives the field's text and the rest |
| `AuthInfo.ConvM2AI` | auth/parse.go:33-43 | the record is nil exactly when the input is nil, as is the remainder; the remainder is a suffix of the input |
| `AuthInfo.ConvM2AIRoundTrip` | auth/parse.go:33-43 | decoding four encoded fields followed by any bytes gives an Info with exactly those fields and the trailing bytes as remainder |
| `AuthInfo.ConvM2AIShort` | auth/parse.go:33-42 | a non-nil buffer shorter than 2 bytes still yields an Info, all fields empty and Secret nil, and the buffer as remainder |
| `AuthInfo.ConvM2AIAcceptsTruncated` | auth/parse.go:33-43 | a record whose Secret is cut short after its length prefix is accepted, with a nil Secret and the cut-off bytes as remainder |
| `AuthInfo.GBytesStrict` | auth/parse.go:5-15 | corrected gbytes: field and remainder are nil together, exactly when the field cannot be read; otherwise they re-encode to the input |
| `AuthInfo.GStringStrict` | auth/parse.go:17-23 | corrected gstring: a nil remainder exactly when the field cannot be read; otherwise the text and remainder re-encode to the input |
| `AuthInfo.ConvM2AIStrict` | auth/parse.go:33-43 | corrected convM2AI: a record exactly when the remainder is non-nil, and then the input is the encoding of its four fields followed by the remainder |
| `AuthInfo.ConvM2AIStrictRoundTrip` | auth/parse.go:33-43 | the corrected decoder inverts the encoder, trailing bytes left as remainder |
| `AuthInfo.ConvM2AIStrictRejectsTruncated` | auth/parse.go:33-43 | the corrected decoder rejects, with a nil record and remainder, every record whose Secret is cut short |
| `Rpc.RPC.constructor` | auth/rpc.go:48 | a new RPC on the given rpc file has a fresh 4096-byte buffer and has sent no request |
| `Rpc.RPC.CopyAt` | auth/rpc.go:61-63 | Go's `copy` into the buffer: copies as many bytes as fit, returns that count, and changes nothing else in the buffer |
| `Rpc.RPC.PutFrame` | auth/rpc.go:61-63 | after the three copies, the buffer starts with `verb ' ' arg`, the rest is unchanged, and `i` is `len(verb)+1+len(arg)` |
| `Rpc.RPC.Call` | auth/rpc.go:57-84 | returns `CallResult`; appends `verb ' ' arg` to the history of requests exactly when it fits in 4096 bytes, and nothing otherwise; leaves the buffer holding the request overlaid by the reply; the index `b[ns]` is in bounds |
| `Rpc.RPC.CallNeedKey` | auth/rpc.go:89-104 | returns `NeedKeyResult`; adds at most one request, `verb ' ' arg`, to the history (it never retries); getKey is invoked at most once, exactly with `KeyQuery` of that Call's outcome |
| `Rpc.GetUserPassword` | auth/rpc.go:109-128 | returns `UserPassword` for the given connection, getKey and tokenizer, and the requests it sent are `UserPasswordRequests` |
| `Rpc.UserPasswordRequests` | auth/rpc.go:110-119 | no request when NewRPC fails; otherwise `start params` (if it fits), then `read ` exactly when start returned "ok"; at most two requests |
| `Rpc.UserPasswordTwoRequests` | auth/rpc.go:115-127 | a successful GetUserPassword sent exactly `start params` and then `read `, once each; `read` is sent exactly when start returned "ok" |
| `Rpc.UserPassword` | auth/rpc.go:115-127 | succeeds exactly when start and read (with a nil arg) both return "ok" and the read payload tokenizes into exactly 2 fields, and then returns those two fields; on failure user and password are empty |
| `Rpc.NeedKeyResult` | auth/rpc.go:89-104 | callNeedKey keeps the Call's status and payload; it can only ever add an error, and only beside a "badkey" status |
| `Rpc.KeyQuery` | auth/rpc.go:94-99 | getKey is called only when Call succeeded, getKey is non-nil and the status is "neekkey" or "badkey", and then on the payload as a string |
| `Rpc.AfterKeyHook` | auth/rpc.go:94-103 | callNeedKey keeps the Call's status and payload; the error changes only when getKey runs and fails, and then it becomes getKey's error |
| `Rpc.Frame` | auth/rpc.go:61-63 | the request is the verb, one space, and the arg's bytes (none for nil), `len(verb)+1+len(arg)` long |
| `Rpc.MatchToken` | auth/rpc.go:73-81 | a token matches when the reply is the token alone (nil payload) or the token, a space and the payload; it fails only when the reply does not start with the token or the byte after it is not a space |
| `Rpc.ScanFrom` | auth/rpc.go:72-82 | a reply found by the scan from index k names a token from k on and is justified by the reply |
| `Rpc.Classify` | auth/rpc.go:72-82 | a classification names a status token, and the reply is that token alone or the token, a space and the payload |
| `Rpc.Deliver` | auth/rpc.go:64-83 | no error exactly when the agent replied and the reply was classified, and then the status is a token justified by the reply; with any error, status and payload are empty |
| `Rpc.BadResponse` | auth/rpc.go:83 | the error text is an 18-byte prefix followed by the whole reply |
| `Rpc.CallResult` | auth/rpc.go:57-84 | a request that does not fit fails with "request too big"; no error only when the request fit, the agent replied and the status is a token |
| `Rpc.BufferAfter` | auth/rpc.go:61-71 | the buffer stays 4096 bytes; unchanged when the request does not fit; after a reply it starts with the reply |
| `Rpc.ShowError` | auth/rpc.go:116-121 | `%v` of an error is its message, and of a nil error the five bytes `<nil>` |
| `Rpc.ShowList` | auth/rpc.go:125 | `%v` of a `[]string` is `[`, the words joined by single spaces, `]` |
| `Rpc.NoProperPrefix` | auth/rpc.go:21-30 | no status token is a proper prefix of another |
| `Rpc.MatchUnique` | auth/rpc.go:72-82 | two tokens that both classify a reply are the same token, so the scan order does not change the result |
| `Rpc.ScanFindsMatch` | auth/rpc.go:72-82 | the scan returns the classification of any token that matches at or after its starting point |
| `Rpc.ScanSound` | auth/rpc.go:72-82 | whatever the scan returns comes from a token at or after its starting point |
| `Rpc.ClassifySpec` | auth/rpc.go:72-82 | a reply is classified as (s, p) exactly when s is a token and the reply is s with a nil payload, or s, a space and p |
| `Rpc.ClassifyNone` | auth/rpc.go:72-83 | the scan finds nothing exactly when no token matches the reply |
| `Rpc.CallFraming` | auth/rpc.go:58-64 | a request longer than 4096 bytes fails with "request too big"; one of at most 4096 bytes, including exactly 4096, goes to the agent as `verb ' ' arg` |
| `Rpc.CallStatusSound` | auth/rpc.go:71-83 | a status returned without error is a member of `rpcReplyStatuses` and the reply is that token alone or the token, a space and the payload, so the payload is a suffix of the reply; with an error, status and payload are empty |
| `Rpc.CallBadResponse` | auth/rpc.go:72-83 | a reply matches no token exactly when Call fails with "bad rpc response: " followed by the reply |
| `Rpc.CallReturnsErrorStatus` | auth/rpc.go:72-79 | a reply "error msg" is returned as status "error" with payload "msg" and no error |
| `Rpc.NeedKeyReplyIgnored` | auth/rpc.go:94-103 | a real "needkey" reply does not run getKey, and callNeedKey returns exactly what Call returned |
| `Rpc.NeekKeyIsNoStatus` | auth/rpc.go:95 | the literal "neekkey" that callNeedKey tests is not a status token |
| `Rpc.KeyHookOnlyOnBadKey` | auth/rpc.go:94-101 | getKey runs exactly when Call returned "badkey" without error and getKey is non-nil, and it runs on the payload |
| `Rpc.BadKeyRunsHook` | auth/rpc.go:95-101 | a "badkey attrs" reply with a non-nil getKey runs getKey on attrs once and returns "badkey", attrs and getKey's error |
| `Rpc.KeyHookCannotRescue` | auth/rpc.go:109-128 | for a fixed agent, once GetUserPassword succeeds with one getKey, it returns the same user, password and nil error with any other getKey, nil included: getKey's error only ever accompanies a "badkey" status, which fails the "ok" test anyway |
| `Rpc.BadKeyWithoutHookFails` | auth/rpc.go:115-118 | a "badkey" reply to start with a nil getKey fails with "rpc start failed: <nil>" |

## Left out

- `NewRPC` and `Close` (auth/rpc.go:39-54): they mount the factotum service and open and close the rpc file. That is 9P I/O. `GetUserPassword` takes the outcome of `NewRPC` as a parameter, and the deferred `Close` is not modelled.
- `rpc.f.Write` and `rpc.f.Read` (auth/rpc.go:64-70): file I/O. They are one `Agent` call: a write error, a read error, or a reply of at most 4096 bytes.
- The agent is a fixed function of the request, so the model cannot express a reply that changes when the same request is sent again, or that depends on earlier requests. Within `GetUserPassword` every request is sent at most once (`Rpc.UserPasswordRequests`).
- `Rpc.KeyHookCannotRescue`: the key that `getKey` may install in the agent is not modelled, so the model cannot express a `read` that succeeds only because `getKey` added a key after `start`. The lemma holds for a fixed agent only.
- Aliasing: the payload `Rpc.RPC.Call` returns is the subslice `b[ns+1:]` of `rpc.buf` (auth/rpc.go:79), which the next `Call` on the same RPC overwrites; the model returns it as a value, so that overwrite is not visible in the returned payload. Likewise the field `AuthInfo.GBytes` returns (auth/parse.go:14), and so `Info.Secret`, shares storage with the input; the model returns copies, so a later write to the input does not show in them.
- `tokenize` (auth/rpc.go:123) is not part of this model. It is a function parameter of `GetUserPassword`.
- `fmt.Sprintf(format, a...)` (auth/rpc.go:115): `GetUserPassword` takes the already formatted parameter string.
- auth/key.go is not part of this model:
  - `GetKey` runs an external `factotum -g` process.
  - `control.AddKey` and `control.DeleteKey` only write `"key "` and `"delkey "` strings to the ctl file.
- auth/factotum_p9p.go and auth/factotum_plan9.go are not part of this model. They only choose how the factotum service is mounted.
- auth/rpc_test.go needs a live factotum.
- Error values are their messages (`Error(text)`). Go's `%v` formatting is modelled for a nil error ("<nil>") and for a `[]string` ("[a b]"), the two forms the code prints.
- String literals become bytes through `Ascii`, which takes each character's code modulo 256. Every literal in the model is ASCII.

## Findings

| source | as written | input that shows it | evidently intended | confidence | as-written member | corrected member |
|---|---|---|---|---|---|---|
| auth/parse.go:5-15 | when a field cannot be read, `gbytes` returns `(nil, p)` with a non-nil `p`, so the `p == nil` check in `convM2AI` (auth/parse.go:39) fires only for a nil input, and a truncated record is returned as valid with a nil Secret | three complete fields followed by `[5, 0, 1]`: Secret declares 5 bytes and 1 is present | a nil remainder when a field cannot be read, so that `convM2AI` returns nil for a truncated record, as Plan 9's C libauth (from which the Go code is ported) does | medium, not executed | `AuthInfo.ConvM2AIAcceptsTruncated` | `AuthInfo.ConvM2AIStrict` |
