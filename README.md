# Store configuration editor (`config.js`): a Dafny model

`config.js` drives the page where the shop owner edits the storefront's settings:
- contact links;
- colours;
- logos;
- the shop's location and address;
- the default WhatsApp message;
- six visibility toggles.

The page keeps everything in `localStorage`. This project models three pieces of it and proves what they promise.

- **The WhatsApp link** (`openWhatsAppWithDefault`).
  - The number is trimmed and loses a leading `+`. Then every character that is not an ASCII digit is deleted.
  - The trimmed message is percent-encoded as `encodeURIComponent` does it (ECMAScript 2015, section 18.2.6.5; section 2.1 of RFC 3986).
  - The link carries `phone=` only when the number is asked for and a digit is left.
  - Modules `JsString`, `UriComponent` and `WhatsAppLink`.
  - The encoder is modelled over all Unicode scalar values through UTF-8.
  - A decoder and a query reader play the receiving side, so that round trips can be stated.
- **Settings persistence.**
  - Loading reads each key with `|| default`, so a missing key and `''` both give the default. It reads the toggles as `=== 'true'`.
  - The save handler makes its `setItem` calls in a fixed order inside a `try` block:
    - text fields are trimmed and colours are not;
    - the toggles sit in an inner `try` whose failure is swallowed;
    - a logo is written only when a file was chosen;
    - a `configUpdate` stamp comes last.
  - A refused `setItem` (quota) throws and abandons the rest of its block.
  - Module `ConfigStore` gives the specification functions. Module `ConfigEditor` holds the page as a class: `localStorage`, the coordinates and the address element are fields, updated by methods that are proved to agree with those functions.
- **The address block** (`updateAddressDisplay`).
  - The reverse-geocoding result becomes one `Label: value` line per non-empty field, in the fixed order Calle, Número, Barrio, Municipio, Departamento, Provincia, Código Postal, País.
  - Municipio is the city, else the town, else the village.
  - A failed lookup gives the placeholder `Dirección no disponible`.
  - Module `AddressBlock`, and the loop in `ConfigEditor.Editor.AppendFields`.

Inputs the page gets from outside are parameters:
- what the form holds when Save is clicked (`ConfigStore.Form`);
- whether a file was chosen for each logo;
- the `Date.now()` stamp;
- the outcome of the lookup (`None` for a failed fetch or parse);
- the browser's quota, as the policy `accepts`, which sees the store a write would produce.

Behaviour that follows from the code as written, and that the lemmas make explicit:
- A colour, the message or the address saved as the empty string (after trimming, for the last two) comes back as its default, not as empty (`ConfigStore.SaveThenLoad`).
- The address is saved as the trimmed `textContent` of the address element (`ConfigEditor.Editor.Save`, `AddressBlock.TextContent`). That element may hold:
  - the text loaded from the store;
  - the line block, whose lines run together with no separator;
  - the failure placeholder.
- A save reported as failed never writes the `configUpdate` stamp (`ConfigStore.FailedSaveDoesNotNotify`).
- A save reported as done may still have lost toggles, because that block's failures are swallowed (`ConfigStore.CompletedSaveStoresFields` promises everything but the toggles).

## Model

| member | source | states |
|---|---|---|
| JsString.TrimStartSpec | config.js:216 | `trim`'s leading step drops a run of white space and keeps a suffix that does not start with white space |
| JsString.TrimEndSpec | config.js:216 | `trim`'s trailing step drops a run of white space and keeps a prefix that does not end with white space |
| JsString.TrimSplit | config.js:175-179 | the input is leading white space, then the trimmed text, then trailing white space |
| JsString.TrimEnds | config.js:175-179 | the result of `trim` neither starts nor ends with white space |
| JsString.TrimSpec | config.js:216 | `trim` removes exactly a white-space prefix and suffix, and its result neither starts nor ends with white space |
| JsString.TrimKeeps | config.js:216 | a string with no white space at either end is unchanged by `trim` |
| JsString.TrimIdempotent | config.js:216 | trimming twice is trimming once |
| UriComponent.HexDigit | config.js:218 | the digit produced is an upper-case hex digit whose value is the nibble |
| UriComponent.HexPair | config.js:218 | a byte becomes two upper-case hex digits whose value is that byte |
| UriComponent.Utf8 | config.js:218 | a character is encoded as 1 to 4 UTF-8 bytes |
| UriComponent.Escape | config.js:218 | each byte becomes three characters, each `%` or an upper-case hex digit |
| UriComponent.Encode | config.js:218 | `encodeURIComponent`'s output is drawn only from the unreserved set, `%` and hex digits |
| UriComponent.EncodeHasNo | config.js:218 | no character outside that alphabet (such as `&`, `=`, space) appears in the encoded text |
| UriComponent.Utf8DecodeChar | config.js:218 | decoding one character's UTF-8 bytes gives back that character, and the rest decodes as before |
| UriComponent.Utf8RoundTrip | config.js:218 | UTF-8 decoding undoes UTF-8 encoding of any string |
| UriComponent.UnescapeEscape | config.js:218 | un-escaping `%XY` triples gives back the bytes |
| UriComponent.UnescapeEncode | config.js:218 | un-escaping the encoded text gives the UTF-8 bytes of the original |
| UriComponent.OverlongRefused | config.js:218 | the decoder refuses an overlong two-byte form (lead byte `C0` or `C1`), so the round trip pins the encoder to shortest-form UTF-8 |
| UriComponent.EncodeRoundTrip | config.js:218 | decoding the encoded message gives back exactly the message, so the encoding loses nothing |
| WhatsAppLink.DeleteNonDigits | config.js:217 | `replace(/\D/g, '')` leaves only ASCII digits |
| WhatsAppLink.DeleteNonDigitsSpec | config.js:217 | what is kept is a subsequence of the input holding each digit exactly as often as the input does |
| WhatsAppLink.NormalizePhone | config.js:216-217 | the normalised number is all ASCII digits and never starts with `+` |
| WhatsAppLink.NormalizeIsDigitsOfRaw | config.js:216-217 | trimming and dropping a leading `+` change nothing about which digits survive: the number is the digits of the raw input |
| WhatsAppLink.NormalizeSpec | config.js:216-217 | the normalised number is exactly the digits of the raw input, in their order and multiplicity |
| WhatsAppLink.NormalizeIdempotent | config.js:217 | normalising an already normalised number returns it unchanged |
| WhatsAppLink.DeleteNonDigitsAppend | config.js:217 | deleting non-digits distributes over concatenation |
| WhatsAppLink.DeleteNonDigitsKeepsDigits | config.js:217 | a string of digits is left as it is |
| WhatsAppLink.DeleteNonDigitsPadded | config.js:216-217 | white space around the number contributes no digit |
| WhatsAppLink.DeleteNonDigitsStripPlus | config.js:217 | dropping a leading `+` does not change the digits |
| WhatsAppLink.QueryWithPhone | config.js:220-221 | the two-parameter query reads back `phone` and `text` |
| WhatsAppLink.QueryWithoutPhone | config.js:222-223 | the text-only query has no `phone` parameter and reads back `text` |
| WhatsAppLink.LinkParams | config.js:215-224 | the link carries `phone=<number>` iff `useNumber` holds and a digit survives, and it always carries the encoded trimmed message as `text`; `useNumber` defaults to true |
| WhatsAppLink.LinkDeliversMessage | config.js:218-224 | whichever form the link takes, the receiver decodes exactly the trimmed message |
| AddressBlock.Candidates | config.js:95-104 | there is one candidate value per label |
| AddressBlock.SlotOfLabel | config.js:95-104 | the eight labels are distinct |
| AddressBlock.CollectStep | config.js:106-123 | appending one slot's line keeps the lines from the next slot on to follow |
| AddressBlock.CollectBySlots | config.js:106-123 | the k-th line is the label and value of the k-th field with a non-empty value |
| AddressBlock.SlotsSpec | config.js:106-107 | the slots shown are strictly increasing, and a slot is shown iff its value is present and non-empty |
| AddressBlock.BlockSpec | config.js:92-123 | the block has at most eight lines, in label order, one per present non-empty value |
| AddressBlock.LabelPresentIff | config.js:95-107 | a label appears iff its value is present and non-empty |
| AddressBlock.MunicipioPresent | config.js:99 | `Municipio` appears iff the city, the town or the village is set |
| AddressBlock.MunicipioValue | config.js:99 | `Municipio` shows the city, else the town, else the village |
| AddressBlock.MissingAddressIsEmpty | config.js:92 | a response without `address` gives an empty block |
| AddressBlock.LabelStart | config.js:95-104 | no label starts as the placeholder does |
| AddressBlock.LinesTextNotPlaceholder | config.js:106-125 | a non-empty block never reads as the placeholder |
| AddressBlock.PlaceholderIffFailure | config.js:124-126 | the element reads `Dirección no disponible` exactly when the lookup failed |
| ConfigStore.Step | config.js:175-205 | a `setItem` that goes through stores its value and touches no other key; a refused write, or any write after one has thrown, leaves the store exactly as it was |
| ConfigStore.RunFrame | config.js:171-211 | a run of writes leaves every key it does not write as it was |
| ConfigStore.RunNeedsStart | config.js:171-211 | a run completes only if started on a completed attempt; after a throw it changes nothing |
| ConfigStore.RunCompletes | config.js:171-211 | with room for every write, a run completes |
| ConfigStore.RunStores | config.js:171-211 | in a completed run, a write whose key no later write reuses has its value stored |
| ConfigStore.RunStoresAll | config.js:171-211 | a completed run with no repeated key stores all of its values |
| ConfigStore.RunSplit | config.js:175-205 | writes one after the other run as the first ones, then the rest |
| ConfigStore.RunLastFrame | config.js:205 | a run whose last write is refused leaves that key as it was |
| ConfigStore.LoadBlank | config.js:38-58 | loading a store with no keys, or only empty strings, gives the defaults: `''` for the contacts and logos, `#ffffff`, `#28a745`, `#000000`, the greeting, `Ubicación no definida`, and every toggle off |
| ConfigStore.FinalWriteKeys | config.js:202-205 | the last writes are the chosen logos and the stamp, each once |
| ConfigStore.FieldsFrame | config.js:175-188 | the field writes touch only contact, colour, coordinate, address and message keys |
| ConfigStore.FieldsStored | config.js:175-188 | when the field writes all go through, every one of their values is stored |
| ConfigStore.FieldsComplete | config.js:175-188 | with room for every write, the field writes all go through |
| ConfigStore.TogglesAllWritten | config.js:191-197 | with room for every write, each toggle is stored as `"true"` or `"false"` |
| ConfigStore.SaveFrame | config.js:170-212 | whether or not it succeeds, a save changes no key it does not write: a logo with no file chosen keeps its previous value |
| ConfigStore.UnwrittenKey | config.js:202-203 | a key the save does not write is in none of its write blocks |
| ConfigStore.StampWrittenOnce | config.js:192-205 | only the last write touches `configUpdate` |
| ConfigStore.FieldsApart | config.js:175-205 | the toggles and the last writes share no key with the field writes |
| ConfigStore.TogglesApart | config.js:191-205 | the toggles and the last writes share no key, and neither repeats one |
| ConfigStore.TailFailureKeepsStamp | config.js:191-205 | when the logo or stamp writes fail, the stamp keeps its old value |
| ConfigStore.TailKeepsFields | config.js:191-205 | when the rest of the save completes, every field value survives and the logos and the stamp are stored |
| ConfigStore.TailUnlimited | config.js:191-205 | with room for every write, the rest of the save completes and leaves every toggle as written |
| ConfigStore.FailedSaveDoesNotNotify | config.js:205-210 | a save that ends in the error alert never changes `configUpdate` |
| ConfigStore.CompletedSaveStoresFields | config.js:175-207 | a save that ends in the success alert has stored every trimmed contact field, every colour, the coordinates, the trimmed address and message, every chosen logo and the stamp |
| ConfigStore.LoadContacts | config.js:38-42 | reloading gives each saved contact field back trimmed |
| ConfigStore.LoadColours | config.js:43-45 | reloading gives each colour back, or its default when it was saved empty |
| ConfigStore.LoadPlace | config.js:48-49 | reloading gives the trimmed address and message back, or their defaults when they trim to nothing |
| ConfigStore.LoadToggles | config.js:53-58 | toggles saved as `String(checked)` reload as exactly the same booleans |
| ConfigStore.LoadLogos | config.js:46-47 | a logo reloads as the chosen file's URL, or as before the save when none was chosen |
| ConfigStore.UnlimitedSaveCompletes | config.js:170-207 | with room for every write, the save ends in the success alert with every toggle stored |
| ConfigStore.UnwrittenLogosKept | config.js:202-203 | a logo with no file chosen keeps what the store held |
| ConfigStore.UnlimitedSaveStores | config.js:170-207 | with room for every write, the save stores every write and keeps the unchosen logos |
| ConfigStore.SaveThenLoad | config.js:38-58 | save then load gives back the trimmed contact fields, the colours, the trimmed address and message and the toggles exactly, except that an empty colour, message or address comes back as its default; a logo comes back as the chosen file or as before |
| ConfigEditor.Editor.constructor | config.js:33-58 | opening the page fills the form from the store by the load rules and shows the stored address or `Ubicación no definida` |
| ConfigEditor.Editor.SetItem | config.js:175-205 | one `setItem`: the new value is stored if the quota accepts it, otherwise it throws and nothing changes |
| ConfigEditor.Editor.WriteAll | config.js:175-188 | consecutive `setItem` calls in one `try`, stopping at the first throw, leave exactly the store and outcome `Run` specifies |
| ConfigEditor.Editor.Save | config.js:170-212 | the save handler leaves exactly the store and success flag `SaveOutcome` specifies, saving the current coordinates and the trimmed address text; nothing else changes |
| ConfigEditor.Editor.UpdateAddressDisplay | config.js:88-127 | the address element ends as the placeholder on failure, else as the line block of `Display` |
| ConfigEditor.Editor.AppendFields | config.js:106-123 | the `forEach` appends exactly the block's lines, in label order |
| ConfigEditor.Editor.MoveMarker | config.js:143-157 | moving the marker or picking a search result keeps the new coordinates and shows the lookup's outcome for them; the store is untouched |

## Left out

- The map, tile layer, draggable marker and search control (config.js:84-86, 133-157) are third-party widgets; only their effect on the coordinates is modelled (`MoveMarker`).
- The `fetch` to the reverse-geocoding service and its JSON parsing (config.js:90-91) are network I/O; only their outcome is modelled, as an optional response.
- Overlapping lookups racing to update the address element are asynchronous concurrency; each `UpdateAddressDisplay` is applied on its own.
- `parseFloat` of the stored coordinates and the `-32.0` / `-64.0` fallbacks (config.js:34-35) are floating-point parsing. Coordinates are opaque strings, given to the constructor and to `MoveMarker`.
- Number-to-string conversion: `setItem` stores `String(currentLat)`. The model stores the coordinate text it is given.
- `URL.createObjectURL` previews and `uploadImage` (config.js:68-81, 160-163) are browser calls. A chosen file is the URL it yields; `WritesLogo` covers the falsy `null` and `''` results.
- `Date.now()` is the `stamp` parameter. `alert`, `console`, `window.open`, element styling and element creation (config.js:108-121, 207-210, 225) are presentation only. The success or error alert is the `completed` flag.
- `localStorage` holds only the 21 keys the editor reads or writes. The editor never touches any other key, so nothing about them is lost.
- The quota policy `accepts` stands for the browser and is opaque. `SaveThenLoad` and the other unconditional round trips are stated for a policy that accepts every write.
- The `try` around the toggle reads (config.js:52-61) cannot throw in this model, so its `catch` is not modelled.
- `|| ''` after the trimmed message (config.js:218) is a no-op on strings and is not modelled.
- The first lookup made when the page opens (`updateAddressDisplay(currentLat, currentLng)`, config.js:130) is not part of the constructor, which stops after the load block (config.js:58). It is a separate `UpdateAddressDisplay` call on the new editor.
- JsString.Trim (config.js:175-179, 185, 188, 216, 218): modelled; its contract is stated by `TrimSpec`, `TrimEnds`, `TrimKeeps` and `TrimIdempotent` rather than on the function.
- WhatsAppLink.StripLeadingPlus (config.js:217): modelled; `NormalizeIsDigitsOfRaw` and `DeleteNonDigitsStripPlus` state what it contributes to the number. On its own, its contract could only repeat its body.
- AddressBlock.Or (config.js:99): modelled; `MunicipioPresent` and `MunicipioValue` state what the `||` chain yields.
- AddressBlock.BlockOf (config.js:92-123): modelled; its contract is stated by `BlockSpec`, `LabelPresentIff`, `CollectBySlots` and `MissingAddressIsEmpty`.
- AddressBlock.Display (config.js:88-127): modelled; `PlaceholderIffFailure` states it, and `ConfigEditor.Editor.UpdateAddressDisplay` is proved equal to it.
- AddressBlock.TextContent (config.js:185): modelled; `LinesTextNotPlaceholder` and `PlaceholderIffFailure` state what the text reads. The save uses it through `ConfigEditor.Editor.Save`.
- ConfigStore.GetOr (config.js:38-51): modelled; `LoadBlank` and the `Load...` lemmas state the `|| default` rule.
- ConfigStore.IsTrue (config.js:53-58): modelled; `LoadToggles` and `LoadBlank` state it.
- ConfigStore.Load (config.js:38-58): modelled; its contract is stated by `LoadBlank` and `SaveThenLoad`, and by `LoadContacts`, `LoadColours`, `LoadPlace`, `LoadToggles` and `LoadLogos`.
- ConfigStore.Run (config.js:171-211): modelled; its contract is stated by `RunFrame`, `RunNeedsStart`, `RunCompletes`, `RunStores`, `RunStoresAll`, `RunSplit` and `RunLastFrame`, and `ConfigEditor.Editor.WriteAll` is proved equal to it.
- ConfigStore.SaveFields (config.js:175-188): modelled; its contract is stated by `FieldsFrame`, `FieldsStored` and `FieldsComplete`.
- ConfigStore.SaveToggles (config.js:191-200): modelled; its contract is stated by `TogglesAllWritten` and `TailUnlimited`.
- ConfigStore.SaveOutcome (config.js:170-212): modelled; its contract is stated by `SaveFrame`, `FailedSaveDoesNotNotify`, `CompletedSaveStoresFields`, `UnlimitedSaveCompletes`, `UnlimitedSaveStores` and `SaveThenLoad`. `ConfigEditor.Editor.Save` is proved equal to it.
- WhatsAppLink.Link: its contract is stated by `LinkParams` and `LinkDeliversMessage` rather than on the function. The model cannot state the URL text beyond its query parameters in any simpler way than its body.
- UriComponent.Encode: a lone surrogate, which makes `encodeURIComponent` throw `URIError`, cannot occur, because Dafny characters are Unicode scalar values.
- The decoder (`UriComponent.Decode`) and the query reader (`WhatsAppLink.LinkParam`) model the receiving side. They exist only to state round trips; the editor does not run them.
