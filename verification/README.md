# QR code generator: payload formatting and history, in Dafny

This project models the pure core of a browser QR code generator (`script.js`,
class `QRCodeGenerator`). It covers four parts:

- **Type registry.** This is the fixed table of eight content types (url, email, phone, sms,
  whatsapp, wifi, vcard, text). Each type has an ordered list of input fields.
- **Payload formatters.** For each type, `format` turns the map from field id to value into
  the text that is encoded in the QR symbol. Email and sms apply `encodeURIComponent`.
  WhatsApp strips every non-digit from the number. WiFi and vCard insert the values verbatim.
- **Bounded history.** Each generation is recorded at the front of a list of at most
  five entries. An entry can be deleted by index, and the list can be cleared.
- **Display helpers.** These give the icon of a history entry and its one-line label.

Modules, one per file:

| file | module | what it holds |
|---|---|---|
| `wrappers.dfy` | `Wrappers` | `Option`. It stands for JavaScript's `undefined` and for a failed parse. |
| `strings.dfy` | `Strings` | Splitting at the first separator, `split`/`join`, and their inverse lemmas. |
| `utf8.dfy` | `Utf8` | UTF-8 for one character, as in RFC 3629, with a decoder proved inverse in both directions. |
| `uri_component.dfy` | `UriComponent` | `encodeURIComponent` from section 19.2.6 of ECMA-262, and `decodeURIComponent`, proved to be its inverse. |
| `registry.dfy` | `Registry` | The content types, their keys and the field table. |
| `payloads.dfy` | `Payloads` | The eight formatters, and readers with round-trip lemmas for the email, sms, WhatsApp, WiFi and vCard payloads. |
| `history.dfy` | `History` | History entries, `addToHistory`, `deleteHistoryItem` and `clearHistory`. |
| `display.dfy` | `Display` | `getIconForType` and `formatHistoryItemText`. |
| `generator.dfy` | `Generator` | Field collection and one "Generate" step. |

Characters are Dafny 4 Unicode scalar values, so `encodeURIComponent` is total.
The email, sms, WhatsApp and WiFi payloads each have a reader that the source does not contain.
A reader parses the payload back, as a mailto, sms or wa.me handler or a WiFi scanner would.
Each round-trip lemma states a condition under which the reader recovers the fields. A converse lemma shows the condition is also needed: the fields do not read back when the email recipient or the sms number holds `?`, the WiFi type or ssid holds `;`, or a vCard value holds a line feed. The WhatsApp payload always reads back.
The vCard payload is read back by splitting it on line feeds.

Behaviour of `script.js` worth knowing, all of which the model reproduces:

- **Deleting at an out-of-range index.** `deleteHistoryItem` uses `splice(index, 1)`.
  An index past the end removes nothing and raises no error.
- **Characters passed through by `encodeURIComponent`.** `! ' ( ) *` are kept as they are,
  along with ASCII letters, digits and `- _ . ~`.
- **Failed drawing.** The entry is recorded only after the `QRCode` constructor returns.
  If it throws, nothing is added to the history (`Generator.GenerateQRCode`, input `drawn`).
- **History entry type.** An entry records its type as a free string, not as a value of
  the type enumeration. Persisted entries are not validated, so the icon fallback and
  the `'QR Code'` label can be reached.

## Model

| member | source | states |
|---|---|---|
| `Registry.Ids` | script.js:26-96 | Every type declares at least one field, and no two fields of a type share an id. |
| `Registry.Fields` | script.js:26-96 | The field table, in form order, carries the ids of `Ids`. The only select field is the third wifi field, `wifiType`, with options `WPA`, `WEP`, `nopass` in that order. It is also the only field without a placeholder. |
| `Registry.FieldsWellFormed` | script.js:26-96 | Each type's field list is non-empty and its ids are pairwise distinct. |
| `Registry.IdsDisjointAcrossTypes` | script.js:26-96 | Two different types never declare the same field id. |
| `Registry.Parse` | script.js:343-359 | A type key is recognised exactly when it is the key of one of the eight types. Otherwise no type matches. |
| `Registry.ParseOfName` | script.js:26-96 | The key of a type is recognised as that type, so the eight keys are distinct. |
| `Utf8.EncodeChar` | script.js:39 | Every character becomes 1 to 4 octets. The leading octet announces the length, the rest are continuation octets, and exactly the ASCII characters take one octet. |
| `Utf8.DecodeOfEncode` | script.js:39 | Decoding the UTF-8 octets of a character gives the character back. |
| `Utf8.EncodeOfDecode` | script.js:39 | Any octet sequence the decoder accepts is the shortest-form encoding of the character it returns. |
| `Utf8.EncodeCharExamples` | script.js:39 | `é`, `€` and `😀` become the octets `C3 A9`, `E2 82 AC` and `F0 9F 98 80`, one character for each multi-octet length. |
| `UriComponent.EncodeChar` | script.js:39 | An unreserved character is kept as it is. Any other character becomes a `%`-run of 3 to 12 characters. |
| `UriComponent.Encode` | script.js:39 | The output consists only of ECMA-unreserved characters and `%XX` triples with upper-case hex digits, and it is never shorter than the input. |
| `UriComponent.EncodeConcat` | script.js:39 | Encoding works one character at a time: the encoding of `a + b` is the encoding of `a` followed by that of `b`. |
| `UriComponent.EncodeExamples` | script.js:39 | `a b` is encoded as `a%20b` and `a&b` as `a%26b`. |
| `UriComponent.EncodeCharAsciiExamples` | script.js:39 | Space becomes `%20` and `&` becomes `%26`. |
| `UriComponent.EncodeCharTwoOctetExample` | script.js:39 | `é` becomes `%C3%A9`. |
| `UriComponent.EncodeCharThreeOctetExample` | script.js:39 | `€` becomes `%E2%82%AC`. |
| `UriComponent.EncodeCharFourOctetExample` | script.js:39 | `😀` becomes `%F0%9F%98%80`: four octets, one character (JavaScript sees two UTF-16 code units). |
| `UriComponent.EscapedAlphabet` | script.js:39 | Every character of an escaped string is unreserved, `%`, or an upper-case hex digit. |
| `UriComponent.EncodeHasNoDelimiters` | script.js:39 | An encoded value never holds a raw `&`, `?`, `=`, `#` or space. |
| `UriComponent.EncodeIdentity` | script.js:39 | Encoding leaves a string unchanged if and only if every character of it is unreserved. |
| `UriComponent.AlphanumericUnchanged` | script.js:39 | Encoding is the identity on ASCII letters and digits. |
| `UriComponent.DecodeOfEncode` | script.js:39 | `decodeURIComponent(encodeURIComponent(s)) == s` for every string. |
| `Payloads.Format` | script.js:26-96 | The url and text payloads are the field value unchanged, and the phone payload is `tel:` followed by the number. Every other type's payload is its formatter applied to the named fields. |
| `Payloads.FormatReadsOnlyDeclaredIds` | script.js:164-170 | Two field maps that agree on the type's declared ids give the same payload. |
| `Payloads.MailtoRoundTrip` | script.js:39 | The email payload `mailto:to?subject=enc(s)&body=enc(b)` reads back as `(to, s, b)` whenever `to` holds no `?`. |
| `Payloads.ParseMailtoRecipient` | script.js:39 | Any recipient the mailto reader returns holds no `?`, because it ends at the first `?`. |
| `Payloads.MailtoRecipientWithQuery` | script.js:39 | A recipient holding `?` never reads back from the email payload, so `MailtoRoundTrip`'s condition is necessary. |
| `Payloads.SmsRoundTrip` | script.js:52 | The sms payload `sms:n?body=enc(m)` reads back as `(n, m)` whenever `n` holds no `?`. |
| `Payloads.SmsNumberWithQuery` | script.js:52 | A number holding `?` never reads back from the sms payload, so `SmsRoundTrip`'s condition is necessary. |
| `Payloads.StripNonDigits` | script.js:59 | The stripped number holds only the characters `0`-`9` and is never longer than the input. |
| `Payloads.StripNonDigitsConcat` | script.js:59 | Stripping distributes over concatenation: the digits of the input are kept in their order and everything else is dropped. |
| `Payloads.StripNonDigitsFixpoint` | script.js:59 | Stripping leaves a string unchanged if and only if it is all ASCII digits. |
| `Payloads.StripNonDigitsIdempotent` | script.js:59 | Stripping twice is the same as stripping once. |
| `Payloads.WhatsAppRoundTrip` | script.js:59 | `https://wa.me/digits?text=enc(m)` always reads back as the stripped number and the message. |
| `Payloads.WifiRoundTrip` | script.js:67 | `WIFI:T:t;S:s;P:p;;` reads back as `(t, s, p)` whenever `t` and `s` hold no `;`. The password may hold anything. |
| `Payloads.WifiFieldWithSeparator` | script.js:67 | A type or ssid holding `;` never reads back from the WiFi payload, so `WifiRoundTrip`'s condition is necessary. |
| `Payloads.WifiPayloadAmbiguous` | script.js:67 | Because nothing is escaped, two different ssid/password pairs can give the same WiFi payload. |
| `Payloads.VcardLineStructure` | script.js:78-88 | Split on line feeds, the vCard payload is exactly nine lines: `BEGIN:VCARD`, `VERSION:3.0`, `FN:`, `TEL:`, `EMAIL:`, `URL:`, `ORG:`, `ADR:;;address;;;` and `END:VCARD`, with the values verbatim. This holds provided no value holds a line feed. |
| `Payloads.VcardValueWithLineFeed` | script.js:78-88 | If any value holds a line feed, splitting the vCard payload on line feeds does not give the nine lines, so `VcardLineStructure`'s condition is necessary. |
| `Payloads.AdrComponents` | script.js:86 | For an address without `;`, the ADR value has six `;`-separated components with the address third. Section 3.2.1 of RFC 2426 defines seven. |
| `Generator.ReadInputs` | script.js:164-167 | Reading the inputs of a list of ids gives a map whose keys are exactly those ids, each holding the value read. |
| `Generator.CollectFieldValues` | script.js:164-167 | The collected map has exactly the active type's declared ids as keys, each with its input's value, so the type's formatter can be applied to it. |
| `Generator.GenerateQRCode` | script.js:159-192 | The values read are exactly the active type's declared fields, and the payload is the type's format of them. If the encoder returned normally, the history becomes `addToHistory` of an entry with the type key, those values, the colours and the timestamp; the old entries stay in order behind it. If the encoder threw, the history is unchanged. A bounded history stays bounded either way. |
| `History.AddToHistory` | script.js:295-299 | The new entry is first and the old entries follow in order, with at most one dropped from the end. From a history of at most five, the result is the new entry followed by the first `min(n, 4)` old ones. |
| `History.RecordAllKeepsNewest` | script.js:295-299 | Starting from a bounded history, any sequence of recordings keeps the five most recent entries, newest first. |
| `History.SixRecordingsKeepFive` | script.js:295-299 | Six recordings into an empty history leave the last five, newest first. The first is evicted. |
| `History.DeleteHistoryItem` | script.js:380-381 | A valid index removes exactly that position and the rest close up in order. An index past the end leaves the history unchanged. A bounded history stays bounded. |
| `History.DeleteRemovesOneEntry` | script.js:381 | Deleting removes one occurrence of the indexed entry and nothing else (as multisets). |
| `History.ClearHistory` | script.js:386-387 | Clearing yields the empty history. |
| `Display.IconForType` | script.js:328-340 | The key of one of the eight types gets that type's icon. Any other string gets `fa-qrcode`. |
| `Display.IconsDistinct` | script.js:329-338 | The eight icons are pairwise distinct and none of them is the fallback icon. |
| `Display.TextLabel` | script.js:357 | The text label is the first `min(n, 30)` characters followed by `...`, even when nothing was cut. Its length is `min(n, 30) + 3`. |
| `Display.OrElse` | script.js:351 | The logical or of JavaScript on strings: `a` unless it is undefined or empty, otherwise `b`. |
| `Display.Label` | script.js:342-361 | An unknown type key labels as `QR Code`, and a text entry labels as its text label. |
| `Display.LabelOfRecordedEntry` | script.js:342-361 | For an entry as a generation records it, the label is the url, recipient, phone number, ssid, name or text label. An sms entry gets its number, or no label when the number is empty. A whatsapp entry never has a label. |

## Left out

- DOM construction (`changeQRType`), history rendering (`displayHistory`) and theme toggling are user interface, not logic.
- The QR symbol is drawn by an external `QRCode` library whose source is not part of this model. It receives the payload with fixed size and error-correction level H. Whether its constructor throws, for example on a payload too long for level H, is the input `drawn` of `Generator.GenerateQRCode`. Showing the download and share buttons afterwards is user interface.
- Download and share use canvas, Blob and `navigator.share` through asynchronous callbacks. They are browser I/O.
- `regenerateQRCode` needs `setTimeout` and DOM lookups. It reads `history[index]`, switches the form with `changeQRType(item.type)`, writes the recorded values back into the inputs that exist, restores the recorded colours and generates again. Only the final generation is modelled, by `Generator.GenerateQRCode`.
- `localStorage` persistence (`saveHistory`, `loadHistory`) consists of foreign `JSON.stringify`/`JSON.parse` calls without validation. `loadHistory` does not truncate, so `length <= 5` holds afterwards only if the stored list already satisfied it. This is why the history lemmas take `Bounded` as a hypothesis.
- The timestamp from `new Date().toISOString()` and the colour values are opaque string inputs.
- JavaScript strings are UTF-16. A lone surrogate makes `encodeURIComponent` throw `URIError`, and `substring` counts code units. The model works on Unicode scalar values, where neither can occur. A text label therefore cuts after 30 scalar values rather than 30 code units.
- History.DeleteHistoryItem: the index is a natural number, because the page only passes positions of rendered entries. A negative `splice` start, which counts from the end, is not modelled.
- Display.IconForType: a plain JavaScript object is used as the icon table, so a key such as `constructor` finds an inherited property instead of the fallback. The model treats every string outside the eight keys as unknown.
- Display.Label: data values are strings, as the page writes them. A persisted entry whose values are not strings is not modelled. A text entry without `textContent` makes the source throw, so `Display.Labelable` requires that key for text entries.
- Payloads.Format: it requires every declared field to be present (`Payloads.HasFields`). The form always has an input for every declared field. Without one, the url and text formatters return the value `undefined` itself. The WhatsApp formatter throws a TypeError at `data.waNumber.replace` when the number is missing, and its payload ends in `text=undefined` when only the message is missing. The other formatters put the text `undefined` into the payload. None of this is modelled.
- Generator.GenerateQRCode: the active type is modelled as one of the eight table types. `changeQRType` with an unknown key, reachable by regenerating a persisted entry, sets `currentType` to that key and then throws. Every later Generate then throws at `this.qrTypes[this.currentType].fields` and records nothing, until a type is picked from the sidebar. That state is not modelled.
- Generator.CollectFieldValues: a declared field without an input element would make `getElementById(...).value` throw. The precondition requires every declared id to have an input.
