# QR Whisperer scanner: chunk reassembly

QR Whisperer moves a text from one screen to another through a sequence of QR codes.
The sender splits the text into parts and prefixes part `i` of `n` with the header
`<<PART i of n>>`. The receiving `QRScanner` component decodes codes from the camera one
at a time. For each decoded text it reads the header, keeps the part's content in a map
from part number to content, and takes the total from the first chunk that brings one.
After every change it checks whether the map holds as many keys as the total. Once it
does, it joins parts `1..total` in index order into the full text and shows a success
message; until then it shows a progress line. From there the user can clear everything
and start again, or submit the text together with a file extension.

The model has five modules:

- `ChunkCodec` (`chunk_codec.dfy`) is the header parser `parseQRChunk`, together with the
  pieces of JavaScript it relies on, each written out. `String.prototype.trim` strips
  the ECMAScript WhiteSpace and LineTerminator characters. A greedy `\d+` is matched,
  `parseInt` reads decimal digits (leading zeros allowed), and `${n}` renders a number.
- `Reassembly` (`reassembly.dfy`) holds the pure half of the protocol: the merge of one
  chunk, the adoption of the total, the completion test, assembly and the progress
  wording. It also defines the folds of these over a sequence of chunks.
- `ReassemblyProperties` (`reassembly_properties.dfy`) proves what the protocol
  guarantees about those functions.
- `Scanner` (`scanner.dfy`) is the component as a class. Its fields are the state
  cells: `chunks`, `totalParts`, `status`, `fullText`, `fileExtension` and the
  subscription's `stopped` flag. Each method is one of:
  - the decode callback;
  - the completion effect;
  - `clearAll`;
  - cancelling or restarting the subscription;
  - the camera-failure path;
  - the extension input;
  - the submit button.

  A ghost history of the accepted chunks ties the class to the folds of `Reassembly`.
- `Greeting` (`greeting.dfy`) runs a two-part message through the class in either
  arrival order. It also states what the parser makes of the two texts
  `<<PART 1 of 2>>Hello, ` and `<<PART 2 of 2>>World!`.

React's scheduling is read as "the completion effect runs after every decode callback".
So a scan is `Offer` followed by `Refresh`.

The model follows the code, including these behaviours a reader of the component
might not expect:

- **No header-less path.** A text without a header is dropped. Nothing treats a bare
  string as a whole one-part message.
- **No range check on part numbers.** Completion compares the number of keys with the
  total, not the set of keys with `1..total`. Surplus keys therefore count towards
  completion, and missing parts assemble as the empty string.
- **Empty stored content is overwritten.** The duplicate check tests the truthiness
  of the stored content, so a part stored as `""` is replaced by a later chunk for the
  same part.
- **A total of 0 never counts.** It is falsy, so it is never treated as a held total,
  and a later chunk's total replaces it.
- **`remaining` can go negative.** When there are more keys than the total, the
  progress line shows a negative count.
- **Contents are trimmed.** Each part's content is trimmed before it is stored, so
  whitespace at a part boundary is lost. The greeting `<<PART 1 of 2>>Hello, ` then `<<PART 2 of 2>>World!` assembles to
  `Hello,World!`, not `Hello, World!`.

## Model

| member | source | states |
|---|---|---|
| ChunkCodec.IsSpace | src/components/QRScanner.jsx:20 | defined by its body: the characters `trim` strips, the ECMAScript WhiteSpace and LineTerminator code points; `LeadingSpaces`, `TrailingSpaces` and `Trim` are stated over it |
| ChunkCodec.LeadingSpaces | src/components/QRScanner.jsx:20 | the leading run that `trim` strips: every character before the count is whitespace, and the next one is not |
| ChunkCodec.TrailingSpaces | src/components/QRScanner.jsx:20 | the trailing run that `trim` strips: every character after the cut is whitespace, and the one before it is not |
| ChunkCodec.Trim | src/components/QRScanner.jsx:20 | the result has no whitespace at either end, and it is the contiguous slice of the input between two all-whitespace runs |
| ChunkCodec.TrimSurrounded | src/components/QRScanner.jsx:20 | trimming whitespace + trimmed text + whitespace gives back exactly the trimmed text |
| ChunkCodec.TrimTrimmed | src/components/QRScanner.jsx:20 | `trim` leaves text that has no whitespace at its ends unchanged |
| ChunkCodec.DigitRun | src/components/QRScanner.jsx:15 | a greedy `\d+` consumes all leading digits and stops at the first non-digit |
| ChunkCodec.DigitRunOfNumeral | src/components/QRScanner.jsx:15 | a numeral followed by a non-digit is matched exactly, so the regex cannot backtrack into it |
| ChunkCodec.NumeralValue | src/components/QRScanner.jsx:18-19 | defined by its body: `parseInt` of a digit string, read most significant digit first with leading zeros allowed; `DecimalRoundTrip` and `NumberSpec` state its properties |
| ChunkCodec.Decimal | src/components/QRScanner.jsx:103 | `${n}` of a non-negative number is a non-empty string of decimal digits with no leading zero unless it is `0` itself, the canonical numeral (below 10^21, where JavaScript switches to exponent form) |
| ChunkCodec.IntString | src/components/QRScanner.jsx:102-103 | `${remaining}` starts with `-` exactly when the number is negative |
| ChunkCodec.IntStringValue | src/components/QRScanner.jsx:102-103 | after the optional `-`, `${remaining}` is a numeral whose value is the magnitude of `remaining` |
| ChunkCodec.DecimalRoundTrip | src/components/QRScanner.jsx:18-19 | `parseInt` reads back the number that `${n}` wrote |
| ChunkCodec.Literal | src/components/QRScanner.jsx:15 | defined by its body: one literal piece of the pattern, matched at the start of the text; `LiteralSpec` states its properties |
| ChunkCodec.LiteralSpec | src/components/QRScanner.jsx:15 | a literal of the pattern matches exactly when the text starts with it, and the rest is what follows it |
| ChunkCodec.Number | src/components/QRScanner.jsx:15-19 | defined by its body: one `(\d+)` group and its `parseInt`; `NumberSpec` and `NumberOfNumeral` state its properties |
| ChunkCodec.NumberSpec | src/components/QRScanner.jsx:15-19 | a `(\d+)` group matches exactly when the text starts with a digit; it splits the text into a numeral and a rest that does not start with a digit, and its value is the numeral's `parseInt` |
| ChunkCodec.NumberOfNumeral | src/components/QRScanner.jsx:15-19 | a numeral followed by a non-digit yields that numeral's value and the rest |
| ChunkCodec.Parse | src/components/QRScanner.jsx:14-22 | the content of every chunk parsed has no whitespace at either end |
| ChunkCodec.ParseClose | src/components/QRScanner.jsx:15-20 | after the digits of the total, a text that continues with `>>` yields a chunk whose content has no whitespace at either end |
| ChunkCodec.ParseCloseFramed | src/components/QRScanner.jsx:15-20 | after `>>` the whole rest of the text, newlines included, is the content, trimmed |
| ChunkCodec.ParseFramed | src/components/QRScanner.jsx:14-22 | every text of the form `<<PART d1 of d2>>rest` with decimal numerals parses to the numerals' values and the trimmed rest |
| ChunkCodec.ParseSound | src/components/QRScanner.jsx:14-22 | every text that parses has that form, and the chunk is read from the numerals and rest it returns |
| ChunkCodec.ParseRejects | src/components/QRScanner.jsx:15-16 | a text that is not of the form `<<PART d1 of d2>>rest` with decimal numerals yields no chunk |
| ChunkCodec.ParseRoundTrip | src/components/QRScanner.jsx:15-21 | the header written from two numbers and a content with no surrounding whitespace parses back to exactly those three |
| Reassembly.HasTotal | src/components/QRScanner.jsx:67 | defined by its body: the truthiness of `totalParts` at lines 67, 95 and 101, false for `null` and `0`; `AdoptAllZero` and `AdoptAllPinned` state its effect |
| Reassembly.Occupied | src/components/QRScanner.jsx:70 | defined by its body: the truthiness of `prev[part]`, false for a missing key and for `""`; `MergeChunkFrame` and `EmptyPartReplaced` state its effect |
| Reassembly.MergeChunk | src/components/QRScanner.jsx:69-72 | defined by its body: the `setScannedChunks` updater; `MergeChunkFrame`, `MergeChunkIdempotent` and `EmptyPartReplaced` state its properties |
| Reassembly.AdoptTotal | src/components/QRScanner.jsx:67 | defined by its body: `if (!totalParts) setTotalParts(total)`; `AdoptAllPinned`, `AdoptAllZero` and `AdoptAllFirstSeen` state its properties |
| Reassembly.IsComplete | src/components/QRScanner.jsx:95 | defined by its body: a truthy total equal to the number of keys; `CompleteInAnyOrder` and `CompletionCountsKeys` state when it holds |
| Reassembly.Lookup | src/components/QRScanner.jsx:97 | defined by its body: `scannedChunks[i + 1]` inside `join`, where a missing part joins as `""`; `AssembleNext` states its effect |
| Reassembly.Slots | src/components/QRScanner.jsx:97 | the `Array.from` of length `total` holds the content of part `i + 1` at index `i`, read through `Lookup` |
| Reassembly.Concat | src/components/QRScanner.jsx:97 | defined by its body: `join('')`; `ConcatAppend`, `AssembleNext` and `AssembleContents` state its properties |
| Reassembly.Assemble | src/components/QRScanner.jsx:97 | defined by its body: the full text of parts `1..total`; `AssembleNext`, `AssembleLocal` and `AssembleContents` state its properties |
| Reassembly.ProgressMessage | src/components/QRScanner.jsx:101-103 | defined by its body: the status template with the key count, the total and the remaining count; `ProgressTwoOfFive`, `ProgressOverfull` and `IntStringValue` state what it shows |
| ReassemblyProperties.MergeChunkFrame | src/components/QRScanner.jsx:69-72 | the keys become the old keys plus the chunk's part; an occupied part is left as it was, otherwise that part takes the chunk's content; every other key keeps its value; the key count grows only for a new part |
| ReassemblyProperties.MergeChunkIdempotent | src/components/QRScanner.jsx:69-72 | offering the same chunk twice has the effect of offering it once |
| ReassemblyProperties.EmptyPartReplaced | src/components/QRScanner.jsx:70-71 | a part stored with empty content is overwritten by a later chunk for the same part |
| ReassemblyProperties.AdoptAllPinned | src/components/QRScanner.jsx:67 | once a total is held, no sequence of later chunks changes it |
| ReassemblyProperties.AdoptAllZero | src/components/QRScanner.jsx:67-95 | chunks that all carry total 0 never establish a total |
| ReassemblyProperties.AdoptAllFirstSeen | src/components/QRScanner.jsx:67 | the total held is the one carried by the first chunk whose total is non-zero |
| ReassemblyProperties.FoldStep | src/components/QRScanner.jsx:66-72 | accepting one more chunk advances the chunk-map fold and the total fold by exactly one merge and one adoption |
| ReassemblyProperties.MergeAllFreshKeys | src/components/QRScanner.jsx:69-72 | merging chunks with distinct new parts adds exactly those parts as keys, one per chunk |
| ReassemblyProperties.MergeAllFreshValue | src/components/QRScanner.jsx:69-72 | after such a merge every chunk's part holds that chunk's content |
| ReassemblyProperties.MergeAllKeeps | src/components/QRScanner.jsx:69-72 | such a merge leaves every key already present unchanged |
| ReassemblyProperties.AssembleNext | src/components/QRScanner.jsx:97 | assembling one more part appends that part's content, or nothing when it is missing |
| ReassemblyProperties.AssembleLocal | src/components/QRScanner.jsx:97 | the full text depends only on parts `1..total`; keys outside that range do not affect it |
| ReassemblyProperties.AssembleContents | src/components/QRScanner.jsx:97 | a map holding `contents[i]` at part `i + 1` assembles to the contents joined in order |
| ReassemblyProperties.CompleteInAnyOrder | src/components/QRScanner.jsx:59-100 | for parts `1..N` of one message arriving in any permutation, the total is `N`, the map is complete, and it assembles to the contents joined in index order |
| ReassemblyProperties.ArrivalsKeys | src/components/QRScanner.jsx:69-95 | such an arrival leaves exactly the keys `1..N` |
| ReassemblyProperties.ArrivalsValue | src/components/QRScanner.jsx:69-72 | such an arrival leaves part `k`'s content at key `k` |
| ReassemblyProperties.CompletionCountsKeys | src/components/QRScanner.jsx:95-97 | the keys `{1, 7}` complete a total of 2: a stray part counts towards completion, and the missing part 2 assembles as `""` |
| ReassemblyProperties.ProgressTwoOfFive | src/components/QRScanner.jsx:101-103 | two keys with a total of five render as `📦 2 / 5 parts scanned (3 remaining)` |
| ReassemblyProperties.ProgressOverfull | src/components/QRScanner.jsx:102-103 | with more keys than the total, the remaining count is rendered as a negative number |
| Scanner.Truthy | src/components/QRScanner.jsx:44 | defined by its body: the truthiness of `fullText` and `fileExtension`, false for `null` and `""`; `Submit` is stated over it |
| Scanner.Accepted | src/components/QRScanner.jsx:60-65 | defined by its body: the chunk the callback goes on with, none when stopped or without a result and otherwise `parseQRChunk`; `Offer` is stated over it, and `ParseFramed`, `ParseSound` and `ParseRejects` say when it is some chunk |
| Scanner.QRScanner.constructor | src/components/QRScanner.jsx:7-12 | the initial state: empty chunk map, no total, `ready to scan...`, no text, no extension, a live subscription |
| Scanner.QRScanner.Offer | src/components/QRScanner.jsx:59-75 | a cancelled subscription, a missing decode result or a text without a header changes nothing; otherwise the parsed chunk is merged and may set the total. Status, text, extension and subscription never change, and the map and total stay the folds of the accepted chunks |
| Scanner.QRScanner.Merge | src/components/QRScanner.jsx:66-72 | the map becomes the merge of the chunk and the total its adoption; the chunk joins the accepted history and nothing else changes |
| Scanner.QRScanner.Refresh | src/components/QRScanner.jsx:92-105 | when complete, the text is parts `1..total` joined in order and the status is the success message; when a total is held but the map is not complete, the status is the progress line for the key count; with no total nothing changes; the map and total never change |
| Scanner.QRScanner.ClearAll | src/components/QRScanner.jsx:24-29 | back to the initial map, total, status and text, so a second call changes nothing more; the extension and the `stopped` flag are kept. Clearing a held total changes a dependency of the effect at line 90, which the model renders as a separate `Cancel` then `Subscribe` |
| Scanner.QRScanner.Cancel | src/components/QRScanner.jsx:84-85 | the current subscription is stopped and nothing else changes; `stopped` stands for the closure flag of line 50 of the subscription that is current |
| Scanner.QRScanner.Subscribe | src/components/QRScanner.jsx:47-50 | a freshly started subscription, with its own `stopped` flag false, is live and nothing else changes; the effect at line 90 re-runs so whenever `totalParts` changes, through `ClearAll` or the first adoption of a total |
| Scanner.QRScanner.ReportCameraFailure | src/components/QRScanner.jsx:76-78 | only the status changes, to the camera-failure message |
| Scanner.QRScanner.SetFileExtension | src/components/QRScanner.jsx:126 | only the extension changes, to the typed value |
| Scanner.QRScanner.Submit | src/components/QRScanner.jsx:42-45 | a submission happens exactly when both the text and the extension are non-empty, and it carries both unchanged |
| Greeting.ScanTwoTexts | src/components/QRScanner.jsx:59-105 | two decoded texts that parse to parts 1 and 2 of 2, handed to the decode callback in either order and each followed by the effect, show the progress line after the first, then the success message and the contents joined in index order |
| Greeting.ScanGreeting | src/components/QRScanner.jsx:59-105 | the texts `<<PART 1 of 2>>Hello, ` and `<<PART 2 of 2>>World!` decoded in either order assemble to `Hello,World!` |
| Greeting.AssembleTwo | src/components/QRScanner.jsx:97 | the two-part map assembles to the first content followed by the second |
| Greeting.GreetingFirstContent | src/components/QRScanner.jsx:20 | the content `Hello, ` is stored as `Hello,` |
| Greeting.GreetingSecondContent | src/components/QRScanner.jsx:20 | the content `World!` is stored as it is |
| Greeting.GreetingFirstParses | src/components/QRScanner.jsx:14-22 | the literal text `<<PART 1 of 2>>Hello, ` is accepted as part 1 of 2 with content `Hello,` |
| Greeting.GreetingSecondParses | src/components/QRScanner.jsx:14-22 | the literal text `<<PART 2 of 2>>World!` is accepted as part 2 of 2 with content `World!` |

## Left out

- Camera and decoder are not modelled: `getUserMedia`, the video element, track stopping and the `@zxing/browser` reader. These are foreign asynchronous APIs. The decode callback is modelled as `Offer`, which takes the decoded text or `None`.
- The readiness poll (`setInterval` on the video element ref) is left out. It is timer plumbing.
- JSX rendering, the Bootstrap components and every `console.log` are left out. They have no behaviour to state.
- `src/App.jsx` is not part of this model. It is an HTTP POST wrapper, which is network I/O.
- React batching and stale closures are left out. The model runs `Refresh` after every `Offer`, and `Offer` sees the current total. In the code, the callback captures `totalParts` from the render that started the subscription. A second chunk decoded before the effect re-subscribes can therefore still find the total unset and set it again.
- The effect at line 90 depends on `totalParts`, so it cancels the subscription and starts a new one, with a fresh `getUserMedia` call, whenever the first total is adopted or `clearAll` drops a held total. The model does not run this by itself. A caller renders it as `Cancel` then `Subscribe`, and a failed restart as `ReportCameraFailure`. The one `stopped` field stands for the closure flag of line 50 of whichever subscription is current; earlier subscriptions' flags are not modelled.
- `handleSubmit`'s test that an `onSubmit` prop was passed is left out. The model assumes the parent always passes one.
- Scanner.QRScanner.Submit: the model folds the button's `disabled` attribute and `handleSubmit`'s `fullText` test into one method. It does not model the button being hidden while there is no text.
- `parseInt` precision and `${n}` rendering of large numbers are not modelled. Part numbers are unbounded naturals; JavaScript loses precision above 2^53, renders numbers from 10^21 up in exponent form (`1e+21`), and object keys are the numbers' string forms. `Decimal` always writes plain digits. Distinct naturals still give distinct keys.
- Characters are Unicode scalar values, not UTF-16 code units. `trim` sees the same whitespace either way, because every whitespace character is in the Basic Multilingual Plane.
