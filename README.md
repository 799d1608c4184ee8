# golib core components in Dafny

This project models several small, sequential components of the golib Go library and proves
properties of them. I/O is replaced by buffers, and network or random outcomes by oracles.
The components are:

- **HTTP server pool** (`httpserver/pool.go`). An ordered collection of server handles keyed by
  bind address, with merge-or-replace insertion, deletion that shuts servers down, lookup,
  filtering and listing, the running rule and `Listen` error aggregation (`HttpServerPool`,
  `pool.dfy`).
- **MIME header Q-encoder** (`mail/encoder.go`). Header sanitising, the "Q" encoding of
  section 4.2 of RFC 2047, and line folding with the `usedChars` bookkeeping (`MailEncoder`,
  `encoder.dfy`).
- **SMTP multipart serialiser** (`njs-smtp/iodata.go`). Headers, boundary delimiters
  (section 5.1.1 of RFC 2046) and 76-byte line chunks (section 6.8 of RFC 2045) written to a
  writer that can refuse writes (`SmtpIOData`, `iodata.dfy`).
- **LDAP helper** (`ldap/ldap.go`, `ldap/model.go`). DN parsing, user-name resolution, the TLS
  mode field, the connection-mode decision and group matching (`Ldap`, `ldap.dfy`), plus the
  configuration model (`LdapModel`, `ldap_model.dfy`).
- **HTTP request builder** (`request/model.go`). Method normalisation, the status whitelist,
  the header and parameter multimaps with `url.Values` semantics, `Clone`, the Authorization
  formats, `AddPath` and the `Do` precondition (`HttpRequest`, `request.dfy`).
- **AWS multipart part-size reader** (`aws/helper/partSize.go`). The size units and the
  part-counting reader (`AwsPartSize`, `part_size.dfy`).
- **Small lookups**. Mail content types (`MailContentType`), FTP client error messages
  (`FtpClientErrors`), OAuth error messages (`OAuthErrors`) and the shared base codes
  (`ErrorCodes`).

The shared helpers stand in for the Go standard library:

- `Common`: UTF-8 encoding of a string, ASCII case mapping, `strings.TrimSpace`, split and join,
  and concatenation.
- `Base64`: the standard padded alphabet, with its decoder and the round trip.
- `Decimal`: the `%d` formatting and its parse-back.

Modelling conventions:

- A Go `string` is a Dafny `string`.
- A Go `[]byte` is `seq<byte>`, and `[]byte(s)` is `Utf8(s)`.
- A Go `int` is 64 bits wide; where the source truncates to `int32` or wraps `int64`, the
  conversion is written out (`AwsPartSize.Int32Of`, `AwsPartSize.Wrap64`).
- Objects whose fields the source updates are classes: `Server`, `Encoder`, `Writer`, `IOData`,
  `HelperLDAP`, `Request`, `ByteSource` and `ReaderPartSize`.
- The pool is a `seq<Server>` value, because the Go pool has value receivers. `MapUpd` works in
  place on an array.

## Model

| member | source | states |
|---|---|---|
| HttpServerPool.Server.constructor | httpserver/pool.go:104-129 | a server handle with its bind, expose and name, the answer its `Merge` gives, the error its `Listen` gives, and not running |
| HttpServerPool.Server.Merge | httpserver/pool.go:117-124 | the oracle merge answer; the handle does not change |
| HttpServerPool.Server.Shutdown | httpserver/pool.go:152-160 | afterwards the server is not running |
| HttpServerPool.Server.Listen | httpserver/pool.go:329-348 | returns the server's listen error and is running exactly when there was none |
| HttpServerPool.FirstIndex | httpserver/pool.go:131-143 | the index of the first member with the bind address; no earlier member has it |
| HttpServerPool.RemoveMembers | httpserver/pool.go:145-156 | removal keeps exactly the members whose bind differs |
| HttpServerPool.RemoveConcat | httpserver/pool.go:145-156 | removal distributes over concatenation, so order is kept |
| HttpServerPool.RemoveAbsent | httpserver/pool.go:145-150 | removing an absent bind address gives the pool back unchanged |
| HttpServerPool.RemoveUnique | httpserver/pool.go:145-156 | removal preserves unique bind addresses |
| HttpServerPool.AddAllPrefix | httpserver/pool.go:111-128 | adding servers one by one is Add's loop, including which servers get shut down at each collision |
| HttpServerPool.AddAllWithin | httpserver/pool.go:111-128 | every member of Add's result, and every server it stops, comes from the pool or the arguments |
| HttpServerPool.AddAllUnique | httpserver/pool.go:111-128 | Add preserves unique bind addresses, even when the arguments repeat a bind |
| HttpServerPool.HasBindAppend | httpserver/pool.go:111-115 | appending a server adds exactly its bind to the pool's binds |
| HttpServerPool.RemoveBinds | httpserver/pool.go:145-156 | after removing `a`, a bind is present iff it was present and is not `a` |
| HttpServerPool.AddOneBinds | httpserver/pool.go:111-124 | after one insertion a bind is present iff it was present before or is the new server's |
| HttpServerPool.AddAllBinds | httpserver/pool.go:104-129 | after Add a bind is present iff it was in the pool or among the arguments |
| HttpServerPool.Fields | httpserver/pool.go:187-247 | the returned field of each selected member, in order |
| HttpServerPool.SelectPrefix | httpserver/pool.go:187-290 | the selection loop extends the result by the next member exactly when it is selected |
| HttpServerPool.FieldsAppend | httpserver/pool.go:187-247 | listing is built by appending one field per selected member |
| HttpServerPool.SelectMembers | httpserver/pool.go:187-290 | a member is selected iff the lowercased pattern is non-empty and contained in its lowercased field, or the regex is non-empty and matches its name |
| HttpServerPool.SelectConcat | httpserver/pool.go:187-290 | selection preserves pool order |
| HttpServerPool.NothingSelected | httpserver/pool.go:187-290 | an empty pattern with an empty regex selects nothing |
| HttpServerPool.ListenErrorsEmpty | httpserver/pool.go:329-348 | the aggregated error list is empty iff no member's Listen fails |
| HttpServerPool.Len | httpserver/pool.go:179-185 | the number of members |
| HttpServerPool.Has | httpserver/pool.go:165-177 | true iff some member has the bind address; false on an empty pool |
| HttpServerPool.Get | httpserver/pool.go:131-143 | nil when no member has the bind, otherwise the first member that has it |
| HttpServerPool.Del | httpserver/pool.go:145-163 | an absent bind leaves the pool and every server unchanged; otherwise the result is the pool without that bind, and every member is shut down |
| HttpServerPool.AddServer | httpserver/pool.go:111-124 | one insertion: append when the bind is new, keep the old entry when Merge accepts, else shut the pool down and replace the entry |
| HttpServerPool.Add | httpserver/pool.go:104-129 | the result is the one-by-one insertion of the arguments, and exactly the servers met at refused merges are shut down |
| HttpServerPool.NewPool | httpserver/pool.go:79-82 | a new pool is Add on the empty pool, with unique bind addresses |
| HttpServerPool.IsRunning | httpserver/pool.go:292-311 | false on an empty pool; otherwise some member runs when `atLeast` holds, or all members run when it does not |
| HttpServerPool.List | httpserver/pool.go:187-247 | the return field of every selected member, in pool order |
| HttpServerPool.Filter | httpserver/pool.go:249-290 | nil on an empty pool, otherwise the selected members in pool order |
| HttpServerPool.MapUpd | httpserver/pool.go:94-102 | each slot is replaced in place by the function's image of its old server |
| HttpServerPool.Listen | httpserver/pool.go:329-348 | nil when every Listen succeeds, else all failure messages in pool order; each server runs iff its Listen succeeded |
| MailEncoder.TrimLeftBytes | mail/encoder.go:181-188 | a suffix of the input that starts with no ASCII space, and the input itself when it already does |
| MailEncoder.TrimRightBytes | mail/encoder.go:181-188 | a prefix of the input that ends with no ASCII space, and the input itself when it already does |
| MailEncoder.TrimBytes | mail/encoder.go:181-188 | the trimmed bytes start and end with no ASCII space |
| MailEncoder.Without | mail/encoder.go:181-188 | removing every copy of a byte leaves none, and changes nothing when there was none |
| MailEncoder.WithoutSubset | mail/encoder.go:181-188 | removing a byte introduces no new byte |
| MailEncoder.WithoutKeepsLast | mail/encoder.go:181-188 | removing a different byte keeps the last byte |
| MailEncoder.WithoutKeepsEnds | mail/encoder.go:181-188 | removing a byte that is at neither end keeps both ends |
| MailEncoder.SecureHeader | mail/encoder.go:181-188 | secureHeader: trim, then remove every CR, LF and TAB; its properties are SecureHeaderClean and SecureHeaderIdempotent |
| MailEncoder.SecureHeaderClean | mail/encoder.go:181-188 | the sanitised header has no CR, LF or TAB, and no surrounding spaces |
| MailEncoder.SecureHeaderIdempotent | mail/encoder.go:181-188 | sanitising twice equals sanitising once |
| MailEncoder.HexValue | mail/encoder.go:162-170 | the value of a hex digit lies in 0..15 |
| MailEncoder.QEncode | mail/encoder.go:162-170 | each byte becomes between one and three output bytes |
| MailEncoder.QEncodeConcat | mail/encoder.go:158-177 | Q-encoding a run of bytes is the concatenation of the per-byte encodings |
| MailEncoder.QDecodeEncode | mail/encoder.go:162-170 | Q-decoding, as section 4.2 of RFC 2047 describes it, recovers every input byte |
| MailEncoder.QEncodeSafe | mail/encoder.go:162-170 | encoded output holds only VCHAR bytes and never `?` |
| MailEncoder.ContinuationRun | mail/encoder.go:161-174 | the continuation bytes counted stay inside the text |
| MailEncoder.RuneLen | mail/encoder.go:158-177 | inside the text a character takes at least one byte and ends within the text |
| MailEncoder.FoldWordsPrefix | mail/encoder.go:73-108 | folding the words one by one is the folding loop |
| MailEncoder.FlattenAppend | mail/encoder.go:73-108 | each finished line is emitted followed by CRLF |
| MailEncoder.JoinAppend | mail/encoder.go:73-108 | joining one more word adds a separator and the word |
| MailEncoder.FoldStepConcat | mail/encoder.go:81-106 | each folding step adds a space and the word to the text, whether or not it breaks the line |
| MailEncoder.FoldStepSpaceLed | mail/encoder.go:81-106 | every line after the first starts with a space |
| MailEncoder.FoldInvariant | mail/encoder.go:73-108 | folding from zero keeps `usedChars` at 0; without the CRLFs the lines are the words joined by spaces, and every continuation starts with a space |
| MailEncoder.PrintableFolding | mail/encoder.go:73-108 | on the printable path, deleting every CRLF gives back the sanitised input, and every CRLF is followed by a space |
| MailEncoder.StartsWithAppend | mail/encoder.go:109-145 | appending keeps a prefix |
| MailEncoder.QStepFramed | mail/encoder.go:123-143 | each encoded character keeps every line opened by `=?CHARSET?Q?` and every break closed by `?=` |
| MailEncoder.QFoldFramed | mail/encoder.go:113-145 | the whole encoded loop keeps that framing |
| MailEncoder.QStepBounded | mail/encoder.go:123-143 | each encoded character keeps the finished lines within their length limits |
| MailEncoder.FitsFreshPieces | mail/encoder.go:113-143 | if the whole text's encoding fits a fresh line, so does every character's |
| MailEncoder.QFoldBounded | mail/encoder.go:113-143 | the encoded loop keeps all finished lines within their limits |
| MailEncoder.OutputFramed | mail/encoder.go:113-152 | each output line starts with `=?CHARSET?Q?` (continuations with a space first) and ends with `?=` |
| MailEncoder.OutputBounded | mail/encoder.go:113-152 | the first output line is at most 75 bytes and continuation lines at most 76 |
| MailEncoder.EncodedLines | mail/encoder.go:109-152 | encoded output is framed per line; from `usedChars` 0, when one character fits a fresh line, the first line is at most 75 bytes and the others at most 76 |
| MailEncoder.EncodedFraming | mail/encoder.go:109-152 | encoded output begins with `=?CHARSET?Q?` and ends with `?=` |
| MailEncoder.CheckPrintable | mail/encoder.go:65-70 | true iff every byte is VCHAR or white space |
| MailEncoder.FoldPrintableFrom | mail/encoder.go:73-108 | the folding loop produces the fold of the space-separated words |
| MailEncoder.AddWord | mail/encoder.go:81-106 | one iteration of the folding loop is one folding step |
| MailEncoder.QByte | mail/encoder.go:162-170 | the per-byte encoding of encodeChar's switch; QDecodeEncode, QEncodeSafe and EncodeByte carry its properties |
| MailEncoder.EncodeByte | mail/encoder.go:162-170 | space becomes `_`; a VCHAR other than `=`, `?`, `_` stays; any other byte becomes `=` and two upper-case hex digits |
| MailEncoder.EncodeChar | mail/encoder.go:158-177 | consumes at least one byte inside the text: the lead byte and its continuation bytes, Q-encoded |
| MailEncoder.EncodeCharStep | mail/encoder.go:161-174 | each byte of the rune loop extends the encoding by that byte's encoding |
| MailEncoder.QRunAdvance | mail/encoder.go:113-145 | the encoded loop advances by one character's length each iteration |
| MailEncoder.EncodeWordsFrom | mail/encoder.go:109-145 | the encoded loop produces the encoded lines followed by `?=` |
| MailEncoder.AddEncodedChar | mail/encoder.go:123-143 | one iteration of the encoded loop is one encoding step |
| MailEncoder.FlattenFirst | mail/encoder.go:148-152 | the flattened lines start with the first line |
| MailEncoder.Encoder.constructor | mail/encoder.go:47-49 | stores the upper-cased charset and the initial `usedChars` |
| MailEncoder.Encoder.FoldPrintable | mail/encoder.go:73-108 | the printable path produces the folded words and leaves `usedChars` at the fold's count |
| MailEncoder.Encoder.EncodeWords | mail/encoder.go:109-145 | the encoded path produces the encoded lines and leaves `usedChars` at the loop's count |
| MailEncoder.Encoder.Encode | mail/encoder.go:53-153 | appends the encoding of the sanitised input to the output; `n` is its length and the error is always nil |
| SmtpIOData.PutClosed | njs-smtp/iodata.go:140-181 | a sequence of writes stops at the first refused one; every write before it lands |
| SmtpIOData.ConcatFront | njs-smtp/iodata.go:83-109 | output is the first write followed by the rest |
| SmtpIOData.PutAppend | njs-smtp/iodata.go:140-160 | two groups of writes in a row behave as the first, then the second only if the first succeeded |
| SmtpIOData.PutOne | njs-smtp/iodata.go:58-76 | one write call is one step of the write sequence |
| SmtpIOData.PutNext | njs-smtp/iodata.go:140-181 | after a write, the sequence continues or stops with its error |
| SmtpIOData.Writer.constructor | njs-smtp/iodata.go:194-202 | an empty writer that accepts a given number of writes |
| SmtpIOData.Writer.Write | njs-smtp/iodata.go:58-76 | a write appends its data when accepted, and otherwise changes nothing and reports an error |
| SmtpIOData.ChunksShape | njs-smtp/iodata.go:88-109 | ceil(len/76) chunks, all but the last exactly 76 bytes, the last 1 to 76 bytes, concatenating to the value |
| SmtpIOData.ChunkWritesPieces | njs-smtp/iodata.go:88-109 | the chunked writes alternate each chunk with CRLF, so there are as many CRLFs as chunks |
| SmtpIOData.ChunkWritesFull | njs-smtp/iodata.go:92-103 | a full 76-byte chunk is written with its CRLF before the rest |
| SmtpIOData.FullLine | njs-smtp/iodata.go:92-103 | the chunk counter reaches a full line exactly 76 bytes after the last one |
| SmtpIOData.ChunkWritesTail | njs-smtp/iodata.go:105-109 | the final partial chunk is written with its CRLF, and nothing is written when none remains |
| SmtpIOData.BytesWritesTwice | njs-smtp/iodata.go:83-109 | for a short value, Bytes emits the value, then the value again, then CRLF |
| SmtpIOData.HeaderLineParts | njs-smtp/iodata.go:62-64 | a header line is key, ": ", value and CRLF |
| SmtpIOData.CrlfBytes | njs-smtp/iodata.go:58-60 | the CRLF string encodes to bytes 13 and 10 |
| SmtpIOData.RawAttachmentBody | njs-smtp/iodata.go:126-161 | AttachmentAdd's body write is the raw attachment; the base64 text is ASCII, and for a non-ASCII attachment the two differ |
| SmtpIOData.EncodedLenZero | njs-smtp/iodata.go:130-138 | the encoded length is 0 iff the attachment is empty |
| SmtpIOData.EncodeAscii | njs-smtp/iodata.go:130-135 | base64 output is ASCII |
| SmtpIOData.Utf8Ascii | njs-smtp/iodata.go:130-135 | ASCII text encodes to one byte per character |
| SmtpIOData.FixedBodyDecodes | njs-smtp/iodata.go:130-161 | writing the base64 buffer makes the body decode back to the attachment |
| SmtpIOData.Hex | njs-smtp/iodata.go:50 | `%x` gives two lower-case hex digits per byte |
| SmtpIOData.UnhexHex | njs-smtp/iodata.go:50 | the hex text determines the bytes |
| SmtpIOData.HexPrefix | njs-smtp/iodata.go:50-52 | a prefix of the hex text is the hex of a prefix of the bytes |
| SmtpIOData.BoundaryOf | njs-smtp/iodata.go:42-52 | the boundary is 28 lower-case hex digits encoding the first 14 random bytes |
| SmtpIOData.DrawBoundary | njs-smtp/iodata.go:40-56 | a cached boundary is returned unchanged; a draw either caches a non-empty boundary, or fails with nothing cached |
| SmtpIOData.BoundaryCached | njs-smtp/iodata.go:40-56 | once drawn, the boundary is returned again without a new draw; a fresh one is 28 hex digits |
| SmtpIOData.IOData.constructor | njs-smtp/iodata.go:194-202 | a serialiser over a writer (possibly nil) with no boundary yet |
| SmtpIOData.IOData.GetBoundary | njs-smtp/iodata.go:40-56 | the boundary draw, cached in the field |
| SmtpIOData.IOData.String | njs-smtp/iodata.go:66-76 | writes the string's bytes; a nil writer gives "empty writer" and writes nothing |
| SmtpIOData.IOData.CRLF | njs-smtp/iodata.go:58-60 | writes "\r\n" |
| SmtpIOData.IOData.Header | njs-smtp/iodata.go:62-64 | writes key, ": ", value, CRLF |
| SmtpIOData.IOData.Bytes | njs-smtp/iodata.go:78-112 | writes the whole value, then its 76-byte chunks each followed by CRLF, stopping at the first error; nil writer: "empty writer" |
| SmtpIOData.IOData.BytesFixed | njs-smtp/iodata.go:88-109 | writes only the chunks, each followed by CRLF |
| SmtpIOData.IOData.AttachmentStart | njs-smtp/iodata.go:114-124 | draws the boundary and writes the multipart header lines; a draw error writes nothing |
| SmtpIOData.IOData.AttachmentAdd | njs-smtp/iodata.go:126-161 | an empty attachment fails with "encoded buffer is empty" before writing; otherwise delimiter, CRLF, the three headers, CRLF, Bytes of the raw attachment, CRLF, stopping at the first error |
| SmtpIOData.IOData.AddPart | njs-smtp/iodata.go:140-160 | the part writes of AttachmentAdd, in order, stopping at the first error |
| SmtpIOData.IOData.AttachmentAddFixed | njs-smtp/iodata.go:126-161 | as AttachmentAdd, but the body is the base64 text in chunked lines |
| SmtpIOData.IOData.AddFixedPart | njs-smtp/iodata.go:140-160 | the part writes with the base64 body |
| SmtpIOData.IOData.AttachmentEnd | njs-smtp/iodata.go:163-181 | writes CRLF, `--b--`, CRLF, CRLF, `--b--`, CRLF, CRLF, stopping at the first error |
| SmtpIOData.IOData.PartHeaders | njs-smtp/iodata.go:140-156 | the delimiter, CRLF, the three part headers and the blank line |
| SmtpIOData.IOData.OpenPart | njs-smtp/iodata.go:140-148 | the delimiter, CRLF and the Content-Type header |
| SmtpIOData.IOData.PartFieldLines | njs-smtp/iodata.go:148-156 | the Content-Transfer-Encoding and Content-Disposition headers and the blank line |
| SmtpIOData.WriteLines | njs-smtp/iodata.go:88-109 | the chunk loop issues the chunk-and-CRLF writes in order, stopping at the first error |
| Ldap.CollectPrefix | ldap/ldap.go:629-646 | the parsing loop handles the components one by one |
| Ldap.ParseEntries | ldap/ldap.go:626-647 | the loop builds the map of the comma-separated components |
| Ldap.CollectIsValuesOf | ldap/ldap.go:636-646 | a key is present iff some component has it, and its values are those components' values in input order |
| Ldap.PairsTrimmed | ldap/ldap.go:636-637 | keys and values are trimmed |
| Ldap.SplitsAtFirstEquals | ldap/ldap.go:629-637 | a component splits at its first `=`, so the value may itself hold `=` |
| Ldap.EmptinessBeforeTrim | ldap/ldap.go:632-637 | a blank key passes the emptiness check and becomes the empty key; an empty key or no `=` is skipped |
| Ldap.GetUserName | ldap/ldap.go:383-404 | a trimmed non-blank argument; else the first parsed `uid`; InvalidUID with InvalidDN, AttributeNotFound or AttributeEmpty otherwise; a success is trimmed and non-empty |
| Ldap.EntriesHaveValues | ldap/ldap.go:638-644 | every key present has at least one value |
| Ldap.GroupsMatch | ldap/ldap.go:588-596 | true iff some requested group equals some member group ignoring case |
| Ldap.Decide | ldap/ldap.go:192-220 | TLS iff the ldaps port is set and the TLS dial succeeds; else port 0 gives init with ServerConfig; a failed dial gives init with the dial error; else STARTTLS if the upgrade works, NONE otherwise |
| Ldap.TryConnectAsWritten | ldap/ldap.go:135-221 | tryConnect as written: Decide over the TLS dial, the plain dial to the ldaps address `ServerAddr(true)`, and StartTLS; Decide and PlainDialMissesLdapPort carry its properties |
| Ldap.TryConnect | ldap/ldap.go:176-221 | the corrected tryConnect (plain dial to the ldap port): with no ldaps port and a reachable ldap port, STARTTLS or NONE with no error |
| Ldap.PlainDialMissesLdapPort | ldap/ldap.go:135-160 | when only the ldap port answers, tryConnect and connect as written fail with ServerDial, while the corrected dial connects |
| Ldap.OpenError | ldap/ldap.go:247-276 | the dials of the kept connection in the decided mode, with the plain dial going to a given address; PlainDialMissesLdapPort carries its properties |
| Ldap.NewLDAP | ldap/ldap.go:55-68 | a nil configuration gives ErrorEmptyParams and no helper; otherwise a new helper over a copy of it, in init mode and unconnected |
| Ldap.HelperLDAP.constructor | ldap/ldap.go:60-66 | the non-nil branch of NewLDAP: a helper with a cloned configuration, init mode and no connection |
| Ldap.HelperLDAP.ForceTLSMode | ldap/ldap.go:76-96 | the four known modes are stored and others ignored; NONE clears the TLS config, otherwise the given config or a fresh empty one |
| Ldap.HelperLDAP.Connect | ldap/ldap.go:223-283 | connect as written: fails first on a nil or done context; does nothing when connected; runs tryConnect as written only in init mode, storing the chosen mode; then dials in that mode, the plain dial going to the ldaps address |
| Ldap.HelperLDAP.ConnectFixed | ldap/ldap.go:223-283 | the corrected connect: as Connect, with tryConnect and the plain dial aimed at the ldap port |
| Ldap.HelperLDAP.Establish | ldap/ldap.go:223-283 | connect's steps for a given tryConnect answer and plain-dial address: context errors first, nothing when connected, the decision only in init mode, then the dials; connected iff no error |
| Ldap.HelperLDAP.UserIsInGroup | ldap/ldap.go:576-597 | user-name and lookup errors are returned; otherwise true iff some group matches ignoring case |
| LdapModel.ModeName | ldap/model.go:44-55 | "starttls", "tls" or "none" exactly for those modes, and "no defined" for every other value |
| LdapModel.GetDefaultAttributes | ldap/model.go:57-59 | the four attributes givenName, mail, uid and dn |
| LdapModel.Clone | ldap/model.go:74-83 | a configuration equal field by field |
| LdapModel.ServerAddr | ldap/model.go:89-95 | the URI, ':' and the decimal port (ldaps or ldap), which parses back to that port |
| Decimal.FormatParse | ldap/model.go:89-95 | `%d` output parses back to the number |
| Decimal.NatDigits | ldap/model.go:89-95 | decimal digits without a leading zero |
| HttpRequest.ValuesGet | request/model.go:109-117 | the first value of a key, or "" when it is absent or has none |
| HttpRequest.ValuesSet | request/model.go:371-380 | the key gets exactly [value]; other keys are unchanged |
| HttpRequest.ValuesAdd | request/model.go:382-391 | the value is appended to the key's values; other keys are unchanged |
| HttpRequest.ValuesDel | request/model.go:364-369 | the key is removed; other keys are unchanged |
| HttpRequest.ValuesReadBack | request/model.go:357-391 | a read after Set gives the value; after Add, the old first value or the added one; after Del, "" |
| HttpRequest.FirstValuesGet | request/model.go:109-117 | the clone has the same keys, one value each, and the same first values |
| HttpRequest.FirstValuesStep | request/model.go:110-117 | each iteration of the clone loop copies one key's first value |
| HttpRequest.NormalMethod | request/model.go:256-286 | an upper-cased method, or "GET" for the empty one; never empty |
| HttpRequest.NormalMethodIdempotent | request/model.go:256-286 | normalising a stored method changes nothing |
| HttpRequest.NormalMethodUpper | request/model.go:256-286 | a stored method has no lower-case letter |
| HttpRequest.BasicAuthorization | request/model.go:349-351 | the Basic credential; BasicAuthorizationDecodes carries its properties |
| HttpRequest.BasicAuthorizationDecodes | request/model.go:349-351 | "Basic " followed by base64 text that decodes to user ":" pass (section 2 of RFC 7617) |
| HttpRequest.BearerAuthorization | request/model.go:345-347 | the Bearer credential; BearerAuthorizationToken carries its properties |
| HttpRequest.BearerAuthorizationToken | request/model.go:345-347 | "Bearer " followed by the token, which reads back (section 2.1 of RFC 6750) |
| HttpRequest.TrimSegment | request/model.go:239-247 | at most one character is removed from each end |
| HttpRequest.TrimSegmentInverse | request/model.go:239-247 | one leading and one trailing `/` are removed; a segment without them is unchanged |
| HttpRequest.TrimAll | request/model.go:239-247 | every segment is trimmed in place |
| HttpRequest.JoinPathAppend | request/model.go:248-253 | joining segments is joining them one at a time |
| HttpRequest.NormalMethodCanSend | request/model.go:436-438 | once a method is set, Do's check passes iff the URL exists and renders non-empty |
| HttpRequest.Request.constructor | request/model.go:123-155 | a fresh request with no method, URL, headers, parameters or error |
| HttpRequest.Request.IsValidCode | request/model.go:88-100 | true for an empty list, else iff the status is in the list |
| HttpRequest.Request.SetMethod | request/model.go:256-286 | stores the normalised method |
| HttpRequest.Request.SetFullUrl | request/model.go:338-343 | stores the URL |
| HttpRequest.Request.CleanHeader | request/model.go:357-362 | the header map becomes empty |
| HttpRequest.Request.DelHeader | request/model.go:364-369 | deletes the key only |
| HttpRequest.Request.SetHeader | request/model.go:371-380 | replaces the key's values with [value] |
| HttpRequest.Request.AddHeader | request/model.go:382-391 | appends the value to the key |
| HttpRequest.Request.ContentType | request/model.go:353-355 | sets the Content-Type header |
| HttpRequest.Request.AuthBearer | request/model.go:345-347 | sets Authorization to the Bearer form |
| HttpRequest.Request.AuthBasic | request/model.go:349-351 | sets Authorization to the Basic form |
| HttpRequest.Request.CleanParams | request/model.go:295-300 | the parameter map becomes empty |
| HttpRequest.Request.DelParams | request/model.go:302-307 | deletes the parameter key only |
| HttpRequest.Request.SetParams | request/model.go:309-318 | replaces the key's values with [val] |
| HttpRequest.Request.AddParams | request/model.go:320-329 | as written: replaces the key's values, like SetParams |
| HttpRequest.Request.AddParamsFixed | request/model.go:320-329 | appends the value to the key, as AddHeader does |
| HttpRequest.Request.AddPath | request/model.go:231-254 | no effect without a URL; otherwise every segment in the caller's slice is trimmed and joined onto the raw or plain path |
| HttpRequest.Request.Do | request/model.go:432-467 | fails with ParamsInvalid, keeping the error field, when the method is empty or the URL is nil or renders empty; otherwise it clears the error, then reports a build error or records a send error |
| HttpRequest.Request.Clone | request/model.go:102-155 | with options stored, the clone dereferences nil; otherwise a fresh request holding the URL and the first value of every header and parameter |
| HttpRequest.Request.CloneFixed | request/model.go:102-155 | always a fresh request with the URL and the first values |
| HttpRequest.Request.CopyInto | request/model.go:109-117 | the two copy loops leave the target's header and parameter maps holding the first values |
| HttpRequest.AddParamsReplaces | request/model.go:320-329 | for a key with values, AddParams as written gives a different result than an append |
| HttpRequest.AddParamsKeeps | request/model.go:320-329 | an append keeps the earlier values and adds the new one last |
| AwsPartSize.Wrap64 | aws/helper/partSize.go:107 | 64-bit wrap-around: congruent modulo 2^64, and the identity in range |
| AwsPartSize.Int32Of | aws/helper/partSize.go:111-113 | the `int32` truncation: in range, congruent modulo 2^32, and the identity in range |
| AwsPartSize.Int32OfWraps | aws/helper/partSize.go:111-113 | part number 2^31 reads back as -2^31 |
| AwsPartSize.UnitsScale | aws/helper/partSize.go:13-20 | SizeBytes is 1 and each unit is 1024 times the previous |
| AwsPartSize.UnitName | aws/helper/partSize.go:38-55 | PartSize.String; UnitNames carries its properties |
| AwsPartSize.UnitNames | aws/helper/partSize.go:38-55 | a non-empty name exactly for the six units, with distinct names; "B" and "PB" at the ends |
| AwsPartSize.SetSize | aws/helper/partSize.go:22-28 | SetSize and SetSizeInt64; SizeConversions carries their properties |
| AwsPartSize.Int | aws/helper/partSize.go:30-36 | Int and Int64; SizeConversions carries their properties |
| AwsPartSize.SizeConversions | aws/helper/partSize.go:22-36 | SetSize and Int are inverse |
| AwsPartSize.SrcRead | aws/helper/partSize.go:134 | a read advances the source by the count, which is what fits and remains, and 0 at the end |
| AwsPartSize.ByteSource.constructor | aws/helper/partSize.go:65-74 | a source at position 0 |
| AwsPartSize.ByteSource.Read | aws/helper/partSize.go:134 | copies exactly the next bytes into the buffer and leaves the rest of the buffer alone |
| AwsPartSize.ReadsAsWritten | aws/helper/partSize.go:123-139 | repeated reads stay within the source |
| AwsPartSize.ReadsFixed | aws/helper/partSize.go:123-139 | repeated corrected reads stay within the source |
| AwsPartSize.ReadsAfterEof | aws/helper/partSize.go:124-126 | once EOF was seen, every read returns 0 |
| AwsPartSize.AsWrittenOverrun | aws/helper/partSize.go:123-139 | as written, one-byte reads deliver all remaining bytes, exceeding the part size |
| AwsPartSize.StaleBuffer | aws/helper/partSize.go:128-132 | as written, a buffer longer than the part's remainder reports bytes but fills none of the caller's |
| AwsPartSize.ReadFixedDelivers | aws/helper/partSize.go:123-139 | the corrected read fills the caller's buffer with next bytes and advances `j` by the count, never past the part size |
| AwsPartSize.FixedBounded | aws/helper/partSize.go:123-139 | corrected reads deliver at most `p - j` bytes per part |
| AwsPartSize.ReaderPartSize.constructor | aws/helper/partSize.go:65-74 | a reader with the part size and i = 0, j = 0, no EOF and no completed parts |
| AwsPartSize.ReaderPartSize.NextPart | aws/helper/partSize.go:91-109 | appends a part with the eTag and the pre-call `i` as `int32`, keeps earlier parts, increments `i` and resets `j` |
| AwsPartSize.ReaderPartSize.CurrPart | aws/helper/partSize.go:111-113 | `i` truncated to `int32` |
| AwsPartSize.ReaderPartSize.CompPart | aws/helper/partSize.go:115-117 | the completed-part list |
| AwsPartSize.ReaderPartSize.IeOEF | aws/helper/partSize.go:119-121 | the EOF flag |
| AwsPartSize.ReaderPartSize.Read | aws/helper/partSize.go:123-139 | as written: (0, EOF) when `e` is set or `j >= p`; a too-long buffer is swapped for a fresh one; `e` is set on EOF; `j` is never advanced |
| AwsPartSize.ReaderPartSize.ReadFixed | aws/helper/partSize.go:123-139 | the corrected read: fills at most `p - j` bytes of the caller's buffer and advances `j` |
| MailContentType.Name | mail/contentType.go:37-46 | "HTML" for ContentHTML; "Plain Text" for every other value |
| MailContentType.MimeType | mail/contentType.go:48-57 | "text/html" for ContentHTML; "text/plain" for every other value |
| MailContentType.NameAgreesWithMimeType | mail/contentType.go:37-57 | the name is "HTML" iff the MIME type is text/html iff the type is ContentHTML |
| FtpClientErrors.GetMessage | ftpclient/errors.go:53-74 | the seven listed codes map to their fixed messages |
| FtpClientErrors.CodesConsecutive | ftpclient/errors.go:31-40 | the eight codes are 1100 to 1107 in order |
| FtpClientErrors.MessageIffListed | ftpclient/errors.go:53-74 | a message is non-empty iff the code is one of the seven listed; ErrorFTPConnection and UNK_ERROR give "" |
| OAuthErrors.GetMessage | oauth/error.go:49-60 | the two codes map to their messages and every other code to "" |

## Left out

- Concurrency. The mutex in `request/model.go` and the pool's `Restart`, `Shutdown` and
  `WaitNotify` (goroutines, semaphore, timeouts, signals) are left out; every model is
  sequential.
- `MapRun` in `httpserver/pool.go` only calls a caller-supplied function for its side effects.
  Those effects are unknown, so it is not modelled (`MapUpd` is).
- A server's real network work is replaced by oracle values fixed at construction: the
  `Merge` answer and the `Listen` error.
- Regular-expression matching (`regexp.MatchString`), `filepath.Join` and `url.URL.String` are
  function parameters.
- `strings.ToLower`, `strings.ToUpper` and `strings.EqualFold` act on ASCII letters only.
- `MailEncoder.SecureHeader` trims ASCII white space only. Go's `strings.TrimSpace` also trims
  Unicode spaces such as U+0085 and U+00A0, which arrive as multi-byte UTF-8.
- The bufio writer of the mail encoder is an output byte sequence that always succeeds.
- The SMTP writer is an appendable buffer that accepts a given number of writes.
  - A refused write writes nothing; partial writes are not modelled.
  - `NewIOData` and the SMTP client behind it are left out.
- `crypto/rand` output is a field holding the bytes the next draw would deliver. A source with
  fewer than 30 bytes gives the short-read error.
- Network operations in `ldap/ldap.go` are oracles:
  - the address dial predicate, the StartTLS outcome, the connection after the decision, and the
    `memberOf` lookup result;
  - `Bind`, `runSearch`, `UserInfo*`, `GroupInfo*`, `UsersOfGroup`, `AuthUser` and `Check` are
    left out.
- `Ldap.HelperLDAP.Connect` models the internal `connect` decision and state update. The
  exported `Connect` also binds, which is network work.
- Ldap.HelperLDAP.constructor: models only the non-nil branch of `NewLDAP`; the nil
  configuration and its ErrorEmptyParams are modelled by `Ldap.NewLDAP`, which calls it.
- HttpRequest.Request.constructor: the empty method of a fresh request is an assumption. The
  package `New(r.f, Options{})` that `Clone` relies on is not part of this model, so the
  `m == ""` clauses of `HttpRequest.Request.Clone` and `HttpRequest.Request.CloneFixed` rest
  on it.
- In `request/model.go`, the package `New` constructor, `SetOption`/`GetOption`, `SetEndpoint`
  (`url.Parse`), `SetPath`, the JSON and reader bodies, `_MakeRequest`, `_GetClient` and
  `DoParse` are left out. Whether options are stored is a constructor flag, and the build and
  send outcomes of `Do` are parameters.
- `UNK_ERROR` is taken to be 0 and the OAuth package base code to be 2300. Neither constant's
  definition is part of this model.
- The `init` registration of message functions in `ftpclient/errors.go` and `oauth/error.go` is
  left out.
- The part-size reader's source behaves like `bytes.Reader`. Part sizes are 64-bit, and
  arithmetic on `i` wraps.
- `MailEncoder.IsVchar` and `MailEncoder.IsWsp` are predicates defined by their ranges, so they
  have no contract of their own.
- `LdapModel.Clone` copies the configuration's value fields only. The TLS certificate pool is
  not part of this model.

## Findings

| source | as written | input that shows it | evidently intended | confidence | as-written member | corrected member |
|---|---|---|---|---|---|---|
| ldap/ldap.go:135-160 | the plain dial, used by tryConnect and connect, goes to `ServerAddr(true)`, the ldaps port | ldaps port 636 and ldap port 389, with only the ldap port answering: the plain dial fails | dial `ServerAddr(false)`, the ldap port | not executed | Ldap.TryConnectAsWritten, Ldap.HelperLDAP.Connect, Ldap.PlainDialMissesLdapPort | Ldap.TryConnect, Ldap.HelperLDAP.ConnectFixed |
| njs-smtp/iodata.go:83-109 | Bytes writes the whole value and then writes it again in chunks | value "A": output "AA\r\n" | write the value once, in 76-byte lines | not executed | SmtpIOData.BytesWritesTwice | SmtpIOData.ChunksShape |
| njs-smtp/iodata.go:130-160 | AttachmentAdd base64-encodes into a buffer but writes the raw attachment | attachment [255]: the body is the byte 255, not "/w==" | write the base64 buffer | not executed | SmtpIOData.RawAttachmentBody | SmtpIOData.FixedBodyDecodes |
| aws/helper/partSize.go:123-139 | Read never advances `j`, so the part limit never triggers | part size 1, a 3-byte source and three 1-byte reads: 3 bytes delivered in one part | add `n` to `j` after each read | not executed | AwsPartSize.AsWrittenOverrun | AwsPartSize.FixedBounded |
| aws/helper/partSize.go:128-132 | a buffer longer than the remainder is replaced by a fresh slice, so the caller's buffer is not filled | part size 1, `j` 0, a 2-byte buffer: n = 1, caller's buffer untouched | read into the caller's slice cut to the remainder | not executed | AwsPartSize.StaleBuffer | AwsPartSize.ReadFixedDelivers |
| request/model.go:123-155 | New leaves `n` nil when options are stored, and Clone then dereferences it | any request whose options are set | build the copy from the stored options | not executed | HttpRequest.Request.Clone | HttpRequest.Request.CloneFixed |
| request/model.go:320-329 | AddParams calls `Set`, replacing the key's values | key "a" holding ["1"], AddParams("a", "2"): ["2"] | call `Add`, appending, as AddHeader does | not executed | HttpRequest.AddParamsReplaces | HttpRequest.AddParamsKeeps |
