# UPI QR scanner: payment-URI codec and scan state

The QR scanner component of the Money Tracker app scans a UPI payment QR code.
Its `handleScan` handler does four things:

- It removes the first `upi://pay?` from the scanned text.
- It parses the rest with `URLSearchParams`.
- It keeps five fields. `pa` and `pn` are kept as they are. `am`, `cu` and `tn` fall back through `||` to `""`, `"INR"` and `"Payment via Money Tracker App"`.
- It stores the result and switches scanning off.

`redirectToUPI` fills a fixed deep-link template with the stored payee, note and amount, and navigates to it.

The project models this core in Dafny:

- `common.dfy`: bytes and `Option`. `None` stands for JavaScript's `null`.
- `utf8.dfy`: UTF-8 encoding, and the WHATWG "UTF-8 decode without BOM" in replacement mode (an invalid sequence becomes U+FFFD).
- `form_urlencoded.dfy`: the parts of `URLSearchParams` the component relies on.
  - Percent-decoding, as section 1.3 of the WHATWG URL Standard defines it.
  - The application/x-www-form-urlencoded parser of section 5.1 of the WHATWG URL Standard.
  - The constructor's removal of a leading `?`.
  - `get`, which returns the first value with the name.
  - A serialiser without escaping, the form the deep-link template writes.
- `js_string.dfy`: `String.prototype.replace` with a string pattern and a replacement without `$`, which replaces only the first occurrence. The component's call replaces with `""`.
- `upi_codec.dfy`: the record the scan produces (`ParsePayment`), the deep link (`PaymentUrl`), and what reading a deep link back gives.
- `qr_scanner.dfy`: the component's state `isScanning` / `scannedData`.
  - As values, with the transitions and their properties.
  - As a class `Scanner` whose methods are the handlers.

`redirectToUPI` returns the URL instead of assigning it to `window.location.href`.

## Model

| member | source | states |
|---|---|---|
| Utf8.EncodeChar | src/QRScanner.jsx:44 | A scalar value is written as 1 to 4 bytes. An ASCII character is the single byte of its own code. Every byte of a non-ASCII character is at least 0x80. |
| Utf8.DecodeStep | src/QRScanner.jsx:44 | One decoder step consumes at least one byte and never more than are left. An ASCII byte is decoded to its own character in one step. |
| Utf8.Decode | src/QRScanner.jsx:44 | The UTF-8 decoder used by `URLSearchParams` never fails. It yields at most one character per byte. |
| Utf8.DecodeStepEncodeChar | src/QRScanner.jsx:44 | One decoder step on an encoded scalar value returns that value and consumes exactly its encoded length, whatever bytes follow. |
| Utf8.DecodeEncode | src/QRScanner.jsx:44 | Decoding the UTF-8 encoding of any string gives the string back. |
| Utf8.EncodeAppend | src/QRScanner.jsx:44 | The encoding of a concatenation is the concatenation of the encodings. |
| Utf8.EncodeOmitsAscii | src/QRScanner.jsx:44 | The encoding of a string contains an ASCII byte only if the string contains that character. |
| FormUrlEncoded.PercentDecode | src/QRScanner.jsx:44 | Percent-decoding never lengthens the bytes. |
| FormUrlEncoded.PercentDecodeWithoutPercent | src/QRScanner.jsx:44 | Bytes without `%` are left unchanged by percent-decoding. |
| FormUrlEncoded.PercentDecodeEncoded | src/QRScanner.jsx:44 | Percent-decoding reads back every byte written as `%` and two upper-case hexadecimal digits. |
| FormUrlEncoded.DecodeComponentPercentEncoded | src/QRScanner.jsx:44 | A name or value written as the percent-encoded UTF-8 bytes of a string decodes to that string. |
| FormUrlEncoded.DecodeComponentWithoutPercent | src/QRScanner.jsx:44 | A name or value without `%` decodes to itself with every `+` turned into a space. |
| FormUrlEncoded.DecodeComponentPlain | src/QRScanner.jsx:44 | A name or value without `&`, `%` or `+` decodes to itself. |
| FormUrlEncoded.SplitOn | src/QRScanner.jsx:44 | Splitting on `&` gives at least one piece. No piece contains `&`. Joining the pieces with `&` restores the input. |
| FormUrlEncoded.SplitOnJoin | src/QRScanner.jsx:44 | Splitting undoes joining when no part contains the separator. |
| FormUrlEncoded.SplitOnConcat | src/QRScanner.jsx:44 | Splitting two texts joined by the separator gives the pieces of the first followed by the pieces of the second. |
| FormUrlEncoded.SplitPair | src/QRScanner.jsx:44 | A piece with `=` is name, `=`, value, where the name has no `=` (the first `=` splits). A piece without `=` is the name with an empty value. |
| FormUrlEncoded.SplitPairAt | src/QRScanner.jsx:44 | A name without `=` followed by `=` and any value splits back into that name and value. |
| FormUrlEncoded.ParsePieces | src/QRScanner.jsx:44 | Each piece gives at most one pair. |
| FormUrlEncoded.ParsePiecesAppend | src/QRScanner.jsx:44 | The pairs of two lists of pieces are the pairs of the first list followed by those of the second. |
| FormUrlEncoded.ParsePiecesSkipsEmpty | src/QRScanner.jsx:44 | An empty piece, wherever it is, contributes no pair. |
| FormUrlEncoded.ParsePiecesSingle | src/QRScanner.jsx:44 | A non-empty piece gives exactly one pair: the decoded name and value, split on the first `=`. |
| FormUrlEncoded.ParsePiecePlain | src/QRScanner.jsx:44 | The piece `name=value` of a plain pair gives that pair back. |
| FormUrlEncoded.ParseQueryEmpty | src/QRScanner.jsx:44 | The empty query has no pairs. |
| FormUrlEncoded.ParseQueryPiece | src/QRScanner.jsx:44 | Text without `&` gives no pair when it is empty. Otherwise it gives one pair, its decoded name and value. |
| FormUrlEncoded.ParseQueryConcat | src/QRScanner.jsx:44 | The pairs of `a&b` are the pairs of `a` followed by the pairs of `b`. |
| FormUrlEncoded.ParseQueryTrailingAmpersand | src/QRScanner.jsx:44 | A trailing `&` adds no pair. |
| FormUrlEncoded.ParseQueryDoubleAmpersand | src/QRScanner.jsx:44 | `&&` between two texts reads like a single `&`. |
| FormUrlEncoded.SearchParamsLeadingQuestion | src/QRScanner.jsx:44 | `new URLSearchParams` drops exactly one leading `?`. Text that does not start with `?` is parsed as it is. |
| FormUrlEncoded.Get | src/QRScanner.jsx:45-49 | `get(name)` is null exactly when no pair has the name. Otherwise it is the value of the first pair with the name. |
| FormUrlEncoded.FirstValueUnique | src/QRScanner.jsx:45-49 | A name has only one first value, so `get` is determined by the list. |
| FormUrlEncoded.ParseSerialize | src/QRScanner.jsx:44 | Parsing a non-empty list of plain pairs written as `name=value&…` gives that list back. |
| FormUrlEncoded.SerializeSplitValue | src/QRScanner.jsx:77 | A value containing `&k=b`, written without escaping, is the same text as the value before it followed by a separate pair `(k, b)`. |
| JsString.IndexOfFrom | src/QRScanner.jsx:44 | Finds the least index at or after `from` where the pattern occurs, or reports that none exists. |
| JsString.ReplaceFirst | src/QRScanner.jsx:44 | Text without the pattern is unchanged. Otherwise only the first occurrence, wherever it is, is replaced. |
| JsString.ReplaceFirstAtStart | src/QRScanner.jsx:44 | A pattern at the very start is the occurrence that is replaced. |
| UpiCodec.OrElse | src/QRScanner.jsx:47-49 | JavaScript's logical-or default is `v` when `v` is a non-empty string. It is the fallback when `v` is null or empty. |
| UpiCodec.Project | src/QRScanner.jsx:45-49 | `payeeUPI` and `payeeName` are null exactly when `pa` / `pn` are absent, and otherwise the first values. `amount` is the first `am` value, or `""` when `am` is absent. `currency` / `note` are the first non-empty `cu` / `tn` value, or the defaults when the name is absent or its first value is empty. |
| UpiCodec.ParsePayment | src/QRScanner.jsx:41-49 | Text without `upi://pay?` is parsed unchanged as a query string. Otherwise the first occurrence, wherever it is, is cut out before parsing. The currency and the note are never empty. |
| UpiCodec.ScannedPlainPairs | src/QRScanner.jsx:44-49 | A scan that is `upi://pay?` followed by plain pairs gives the five fields projected from exactly those pairs. The first name may be empty but must not start with `?`. |
| UpiCodec.ParsePayeeOnlyExample | src/QRScanner.jsx:44-49 | `upi://pay?pa=bob@bank` gives payee `bob@bank`, name null, amount `""`, currency `INR` and the default note. |
| UpiCodec.ParseFullExample | src/QRScanner.jsx:44-49 | `upi://pay?pa=alice@bank&pn=Alice&am=50&cu=INR&tn=Lunch` gives payee `alice@bank`, name `Alice`, amount `50`, currency `INR` and note `Lunch`. |
| UpiCodec.TemplateText | src/QRScanner.jsx:77 | A template literal writes a null payee as the text `null`, and a string as itself. |
| UpiCodec.PaymentUrl | src/QRScanner.jsx:77 | The deep link starts with the prefix `upi://pay?` that handleScan removes, and has more after it. |
| UpiCodec.PaymentUrlFields | src/QRScanner.jsx:76-77 | The deep link is `upi://pay?` followed by the eight parameters `pa`, `pn=Merchant`, `mc=0000`, `tid=123456`, `tr=123456`, `tn`, `am` and `cu=INR`, with the record's texts inserted verbatim (a null payee is written `null`). |
| UpiCodec.PaymentUrlPayeeOnlyExample | src/QRScanner.jsx:77 | The record with payee `bob@bank`, an empty amount and the default note gives exactly `upi://pay?pa=bob@bank&pn=Merchant&mc=0000&tid=123456&tr=123456&tn=Payment via Money Tracker App&am=&cu=INR`. |
| UpiCodec.PaymentUrlIgnoresNameAndCurrency | src/QRScanner.jsx:76-77 | The record's payee name and currency have no effect on the deep link. |
| UpiCodec.ParsePaymentUrl | src/QRScanner.jsx:44-77 | Reading a deep link back through the scan parser gives:<br>• the payee's template text;<br>• name `Merchant`;<br>• the same amount;<br>• currency `INR`;<br>• the note, or the default note when it is empty.<br>This holds when the inserted texts are plain. |
| UpiCodec.InjectedAmountOverrides | src/QRScanner.jsx:77 | Because values are not escaped, a note `before&am=x` puts an extra `am` ahead of the real one. Reading the link back then gives amount `x`, whatever the record's amount is. The payee text, `before` and `x` must be plain. |
| QrScanner.Redirect | src/QRScanner.jsx:74-82 | redirectToUPI produces nothing exactly when nothing is stored. Otherwise it produces the deep link of the stored record. |
| QrScanner.Start | src/QRScanner.jsx:65-67 | startScanning switches scanning on and keeps the stored record. |
| QrScanner.Stop | src/QRScanner.jsx:69-71 | stopScanning switches scanning off and keeps the stored record. |
| QrScanner.Scan | src/QRScanner.jsx:41-62 | A truthy scan stores exactly the record parsed from it and switches scanning off. A null or empty scan changes nothing. |
| QrScanner.InitialState | src/QRScanner.jsx:5-6 | On mount the component is not scanning, stores nothing and offers no deep link. |
| QrScanner.StartIdempotent | src/QRScanner.jsx:65-67 | A second startScanning changes nothing. |
| QrScanner.StopIdempotent | src/QRScanner.jsx:69-71 | A second stopScanning changes nothing. |
| QrScanner.StartStop | src/QRScanner.jsx:65-71 | Stopping after starting equals stopping. Starting after stopping equals starting. |
| QrScanner.TransitionsKeepValid | src/QRScanner.jsx:47-60 | Every transition keeps the stored record's currency and note non-empty. |
| QrScanner.RedirectAfterScan | src/QRScanner.jsx:52-82 | After a truthy scan, the deep link is built from the record just parsed, whatever was stored before. |
| QrScanner.RescanRedirect | src/QRScanner.jsx:41-82 | Scanning the deep link of a stored record with plain texts stores the template payee, `Merchant`, the same amount, `INR`, and the note or its default. |
| QrScanner.Scanner.constructor | src/QRScanner.jsx:5-6 | The component starts in the initial state. |
| QrScanner.Scanner.StartScanning | src/QRScanner.jsx:65-67 | `isScanning` becomes true. `scannedData` is unchanged. |
| QrScanner.Scanner.StopScanning | src/QRScanner.jsx:69-71 | `isScanning` becomes false. `scannedData` is unchanged. |
| QrScanner.Scanner.HandleScan | src/QRScanner.jsx:41-62 | For truthy text, `scannedData` becomes the parsed record and `isScanning` becomes false. For null or `""`, neither field changes. |
| QrScanner.Scanner.RedirectToUpi | src/QRScanner.jsx:74-82 | Returns nothing exactly when `scannedData` is null. Otherwise it returns the deep link of the stored record. It changes no state. |

## Left out

- The camera session (src/QRScanner.jsx:10-38) is not modelled. This covers ZXing's `BrowserMultiFormatReader`, device enumeration, the promise chain, the per-frame callback and `codeReader.reset()`. They are a foreign library and asynchronous event-loop plumbing. The model calls `HandleScan` directly with the decoded text, or with null.
- The `console.error` logging (src/QRScanner.jsx:25, 31) is I/O.
- `window.location.href` navigation (src/QRScanner.jsx:80) is an effect outside the component. The deep link is returned instead.
- The JSX rendering (src/QRScanner.jsx:84-128) is UI.
- React's state updates are asynchronous and batched. The model applies each setter at once and in order. This gives the same final state, because each handler's updates are independent of each other.
- `URLSearchParams` first converts its argument to a USVString, which replaces lone surrogates with U+FFFD. Dafny's `char` is a Unicode scalar value, so lone surrogates cannot occur in the model.
- The standard splits on `&` and `=` and turns `+` into spaces on bytes. The model does this on characters. The two agree because all three are ASCII and UTF-8 never uses a byte below 0x80 inside a multi-byte sequence.
- The remaining `URLSearchParams` methods, and its own serialiser (which percent-encodes), are not used by the component.
- JsString.ReplaceFirst: stated only for a replacement text without `$`. With `$`, JavaScript expands the substitution patterns `$$`, `$&`, `` $` `` and `$'`. The component replaces with `""`, so this never arises.
- UpiCodec.ParsePaymentUrl: stated only for records whose payee text, note and amount are plain (no `&`, `%` or `+`). For other texts the un-escaped template is not a faithful encoding, and InjectedAmountOverrides shows one way it fails.
- UpiCodec.ScannedPlainPairs: stated only for serialised plain pairs whose first name does not start with `?` (an empty first name is allowed). Other scans are covered by ParsePayment's contract.
- UpiCodec.InjectedAmountOverrides: stated only when the payee text, the note's part before `&am=` and the injected amount are plain. With `&` in them, the pairs of the link shift further, as SerializeSplitValue shows.
