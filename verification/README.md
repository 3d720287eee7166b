# Figma URL parsing and MindSpace app logic, in Dafny

This project models the logic of two small programs and proves properties about them.

- **The Figma URL parser** (`parse_figma_url`) takes a Figma design URL and returns its file key and node id. For a branch URL `/design/{fileKey}/branch/{branchKey}` it returns the branch key. The node id comes from the `node-id=` query value, rewritten from the URL form `1-2` to the API form `1:2`. The model keeps the three regular-expression searches as they are written:
  - `re.search` returns the earliest position where its pattern matches.
  - A greedy `[^/]+` or `[\d-]+` captures the longest run of its class.
  - Matching works on the raw string; the URL is never split into path and query. So when no `/` follows the key, the file key swallows the query string, e.g. `.../design/abc?node-id=1-2` gives the key `abc?node-id=1-2`. `QueryJoinsKeyWithoutSlash` proves this.
- **The MindSpace app** (React Native):
  - the utility functions `formatNumber`, `calculateProgress` and `truncateText`;
  - the progress-bar clamp;
  - the avatar, which shows an image, else the name's initials, else a placeholder;
  - the chat screen's transcript. It starts with one greeting from the companion. Each press of send appends the trimmed input as a user message and clears the input. A press does nothing when the trimmed input is empty.

Modules:

| file | module | models |
|---|---|---|
| `wrappers.dfy` | `Wrappers` | `Option` (Python's `None`, an absent prop) |
| `sequences.dfy` | `Sequences` | associativity of sequence concatenation, used by the proofs |
| `ascii.dfy` | `Ascii` | the ASCII digit class shared by the URL parser and the number formatter |
| `js_math.dfy` | `JsMath` | `Math.min` and `Math.max` over reals |
| `js_string.dfy` | `JsString` | the JavaScript string built-ins the app uses: `trim`, `toUpperCase`, `slice(0, n)`, `split`, `join` |
| `figma_url.dfy` | `FigmaUrl` | `parse_figma_url` |
| `utils.dfy` | `Utils` | `utils/index.ts` |
| `progress_bar.dfy` | `ProgressBar` | the clamp in `ProgressBar.tsx` |
| `avatar.dfy` | `Avatar` | `getInitials` and the render choice in `Avatar.tsx` |
| `chat.dfy` | `Chat` | the `Message` record, the initial state, `handleSend` and the send button's enablement in `ChatScreen.tsx` |

The chat screen is stateful, so it is a class, `Chat.ChatScreen`. Its fields are `messages` and `inputText`, and its methods `ChangeText` and `Send` update them in place. `Send` is proved against the pure step function `SendStep`. The lemmas about `SendStep` and about whole sessions (`Run` over a sequence of typing and send events) carry the transcript's invariants. Everything else in the model is pure functions and lemmas, as the sources are.

## Model

| member | source | states |
|---|---|---|
| FigmaUrl.ParseFigmaUrl | skills/d2c-figma/scripts/parse_figma_url.py:17-50 | An empty URL gives (None, None). A file key, when present, is non-empty and contains no `/`. The file key is None exactly when no `/design/` in the URL is followed by a non-`/` character. A node id, when present, is non-empty and consists of digits and `:` only. The node id is None exactly when no `node-id=` is followed by a digit or `-`. |
| FigmaUrl.FileKey | skills/d2c-figma/scripts/parse_figma_url.py:33-42 | A found file key is non-empty and contains no `/`. The file key is None exactly when no `/design/` is followed by a non-`/` character; every branch match is also a design match. |
| FigmaUrl.NodeId | skills/d2c-figma/scripts/parse_figma_url.py:44-48 | A found node id is non-empty and consists of digits and `:` only. The node id is None exactly when no `node-id=` is followed by a digit or `-`. |
| FigmaUrl.Search | skills/d2c-figma/scripts/parse_figma_url.py:34 | `re.search`: a found position matches, and no earlier position does. None means no position matches. |
| FigmaUrl.RunLength | skills/d2c-figma/scripts/parse_figma_url.py:34 | A greedy character-class run: every consumed character is in the class, and the run stops at the end of the string or at a character outside the class. |
| FigmaUrl.DashesToColons | skills/d2c-figma/scripts/parse_figma_url.py:48 | `replace('-', ':')` keeps the length, turns every `-` into `:` and leaves every other character alone. |
| FigmaUrl.BranchKeyWins | skills/d2c-figma/scripts/parse_figma_url.py:33-37 | For `pre/design/{key}/branch/{branchKey}` followed by `/` or nothing (both keys non-empty and slash-free, no earlier branch match), the file key is the branch key. An earlier `/design/` with no branch after it does not change this. |
| FigmaUrl.DesignKeyWithoutBranch | skills/d2c-figma/scripts/parse_figma_url.py:38-42 | With no branch match anywhere and no earlier design match, the file key is the slash-free run after this `/design/`. |
| FigmaUrl.QueryJoinsKeyWithoutSlash | skills/d2c-figma/scripts/parse_figma_url.py:40-42 | When no `/` follows the key and no design match comes before it, the file key is the key plus `?` plus the whole query string; no branch match is possible there. |
| FigmaUrl.NodeIdFromFirstMatch | skills/d2c-figma/scripts/parse_figma_url.py:45-48 | The node id comes from the first `node-id=` followed by a digit or `-`. It has exactly as many characters as that run, with each `-` replaced by `:`. |
| FigmaUrl.NodeIdIgnoresPath | skills/d2c-figma/scripts/parse_figma_url.py:44-48 | With no `=` in the path, and a query part that is empty or starts with `?`, the node id of path plus query equals the node id of the query alone. File-key extraction does not affect it. |
| FigmaUrl.UsageExample | skills/d2c-figma/scripts/parse_figma_url.py:9 | The usage example `https://figma.com/design/pqrs/ExampleFile?node-id=1-2` parses to (`pqrs`, `1:2`). |
| Utils.NatToDecimalValue | mindspace-app/src/utils/index.ts:9 | The decimal rendering of a natural number reads back as that number. |
| Utils.FormatNumber | mindspace-app/src/utils/index.ts:8-10 | A number in 0..9 gets a leading `0`. A number from 10 up is its plain decimal, with no leading zero. A negative number gets `0` before its minus sign. |
| Utils.FormatNumberReadsBack | mindspace-app/src/utils/index.ts:8-10 | For a non-negative number the result has at least two characters, all digits, and reads back as the number. It starts with `0` exactly when the number is below 10. |
| Utils.CalculateProgress | mindspace-app/src/utils/index.ts:15-18 | The result is always within [0, 100], and a zero total gives 0. |
| Utils.CalculateProgressPositiveTotal | mindspace-app/src/utils/index.ts:15-18 | For a positive total: current >= total gives 100, and current <= 0 gives 0. In between, result * total == current * 100, i.e. the exact percentage. |
| Utils.TruncateText | mindspace-app/src/utils/index.ts:23-26 | Text that fits is returned unchanged. Longer text becomes its first maxLength characters followed by `...`. |
| Utils.TruncateTextIdempotent | mindspace-app/src/utils/index.ts:23-26 | Truncating a result again to the same maxLength returns it unchanged: the prefix it keeps is the same and the ellipsis is re-appended. |
| JsMath.ClampOrderIrrelevant | mindspace-app/src/utils/index.ts:17 | `min(hi, max(lo, x)) == max(lo, min(hi, x))` when lo <= hi, so `calculateProgress` and the progress bar clamp alike. |
| ProgressBar.ClampProgress | mindspace-app/src/components/ProgressBar.tsx:20 | The clamped progress lies in [0, 100]. Below 0 it gives 0, above 100 it gives 100, and a value inside the range is unchanged. |
| ProgressBar.ClampIdempotent | mindspace-app/src/components/ProgressBar.tsx:20 | Clamping twice equals clamping once. |
| ProgressBar.ClampMonotone | mindspace-app/src/components/ProgressBar.tsx:20 | p <= q implies clamp(p) <= clamp(q). |
| ProgressBar.ClampExamples | mindspace-app/src/components/ProgressBar.tsx:20 | -5 clamps to 0, 150 to 100, 42 to 42. |
| JsString.Trim | mindspace-app/src/screens/ChatScreen.tsx:37 | The result has no whitespace at either end. It is empty exactly when the input is all whitespace. It is a contiguous piece of the input with only whitespace around it. |
| JsString.TrimIdempotent | mindspace-app/src/screens/ChatScreen.tsx:37-40 | Trimming twice equals trimming once. |
| JsString.SplitJoin | mindspace-app/src/components/Avatar.tsx:26-28 | Joining the pieces of a split with the same separator gives back the original string. |
| Avatar.GetInitials | mindspace-app/src/components/Avatar.tsx:24-31 | At most two characters. |
| Avatar.FirstCharsOfSplit | mindspace-app/src/components/Avatar.tsx:25-28 | Taking each space-separated piece's first character (nothing for an empty piece) gives exactly the name's word starts: the non-space characters that begin the name or follow a space, in order. |
| Avatar.InitialsAreWordStarts | mindspace-app/src/components/Avatar.tsx:24-31 | The initials are the first two upper-cased word starts. |
| Avatar.SingleWordInitial | mindspace-app/src/components/Avatar.tsx:24-31 | A non-empty name without spaces gives exactly one character, its first character upper-cased. |
| Avatar.TwoWordInitials | mindspace-app/src/components/Avatar.tsx:24-31 | Two words joined by one space give the upper-cased first character of each, in order. |
| Avatar.ExtraSpacesIgnored | mindspace-app/src/components/Avatar.tsx:26-28 | A leading space and a doubled space do not change the initials: empty pieces contribute nothing. |
| Avatar.InitialsEmptyIffBlank | mindspace-app/src/components/Avatar.tsx:24-31 | The initials are empty exactly when the name consists only of spaces. |
| Avatar.InitialsExamples | mindspace-app/src/components/Avatar.tsx:24-31 | "Jane Doe" gives "JD", and "Username" gives "U". |
| Avatar.Content | mindspace-app/src/components/Avatar.tsx:35-45 | An image exactly when the source is truthy, i.e. an object, or a number other than 0. Otherwise initials of the name exactly when the name is a non-empty string. Otherwise a placeholder. |
| Chat.InitialWellFormed | mindspace-app/src/screens/ChatScreen.tsx:24-32 | The screen starts with exactly one message, the companion's greeting (not a user message), and an empty input. |
| Chat.SendStep | mindspace-app/src/screens/ChatScreen.tsx:36-47 | With blank trimmed input, nothing changes. Otherwise the transcript grows by exactly one, earlier messages stay unchanged and in order, the new last message is a user message with the trimmed text, and the input becomes empty. |
| Chat.SendPreservesWellFormed | mindspace-app/src/screens/ChatScreen.tsx:36-47 | A send keeps the transcript well formed: the greeting comes first, and every later message is a user message whose text is non-empty and trimmed. |
| Chat.SendChangesIffEnabled | mindspace-app/src/screens/ChatScreen.tsx:37 | A send changes the state if and only if the trimmed input is non-empty. |
| Chat.RunAppendOnly | mindspace-app/src/screens/ChatScreen.tsx:44 | Over any sequence of typing and sends, the old transcript stays a prefix of the new one and the transcript stays well formed. |
| Chat.ReachableTranscript | mindspace-app/src/screens/ChatScreen.tsx:24-47 | In every reachable state the greeting is first and is the only message that is not the user's. |
| Chat.SessionExample | mindspace-app/src/screens/ChatScreen.tsx:36-47 | Sending "  " does nothing. Sending " Hello " appends the user message "Hello" and clears the input. Sending again with the cleared input does nothing. |
| Chat.ChatScreen.constructor | mindspace-app/src/screens/ChatScreen.tsx:24-32 | The new screen holds only the greeting and an empty input. |
| Chat.ChatScreen.ChangeText | mindspace-app/src/screens/ChatScreen.tsx:127-135 | The input field takes the new text and the transcript is untouched. The field refuses more than 500 characters. |
| Chat.ChatScreen.SendEnabled | mindspace-app/src/screens/ChatScreen.tsx:136-139 | The send button is enabled exactly when the input contains a non-whitespace character. |
| Chat.ChatScreen.Send | mindspace-app/src/screens/ChatScreen.tsx:36-47 | `handleSend` updates the fields in place: the new state is `SendStep` of the old state, and the transcript invariant is kept. |

## Left out

- `main` in skills/d2c-figma/scripts/parse_figma_url.py (lines 53-76): reading the command line, printing and the exit status are I/O.
- The message id `Date.now().toString()` and the timestamp `new Date()` (mindspace-app/src/screens/ChatScreen.tsx:39,42). The id is a parameter of `Send`. It is not unique: two sends in the same millisecond collide, so the model claims no uniqueness. Timestamps are not modelled.
- Styles, theme tables, navigation, the emotion tags and the static welcome card are not modelled. The static screens (HomeScreen, ProfileScreen, ChapterScreen), App.tsx, the bundler configuration and the platform helpers are not part of this model either. None of them has behaviour beyond layout.
- Floating point: `calculateProgress` and the progress clamp are modelled over exact reals. NaN, Infinity, rounding and the layout arithmetic `size / 2` and `size * 0.4` are not modelled.
- Utils.FormatNumber: modelled over integers only. The source accepts any JavaScript number, so a fractional input such as 2.5 (rendered "02.5") is not covered.
- Utils.FormatNumber: a JavaScript number of magnitude 10^21 or more renders in exponent form (`1e+21`, and `0-1e+21` for the negative), and integers beyond 2^53 are not exact doubles. The model renders every integer as plain decimal digits, so its contract holds for the source only for magnitudes below 10^21 (and exact integers).
- Utils.FormatNumberReadsBack: "all digits, reads back as the number" holds for the source only for numbers below 10^21; from 10^21 on the source's text is exponent form, which this model does not produce.
- Unicode: `trim` removes only ASCII whitespace (space, tab, line feed, carriage return, vertical tab, form feed), `toUpperCase` maps only a-z, and Python's `\d` is taken as the ASCII digits. Unicode whitespace, length-changing case mappings and non-ASCII digits are not modelled.
- Utils.TruncateText: the model counts length and cuts in Unicode scalar values, while JavaScript's `length` and `slice` count UTF-16 code units. A character outside the Basic Multilingual Plane (an emoji, say) counts as one in the model but as two in the source, so such text is cut at a different place, and the source can leave half a surrogate pair before the `...`.
- Avatar.GetInitials: `n[0]` and `slice(0, 2)` work on UTF-16 code units in the source but on Unicode scalar values in the model. For a word starting with a character outside the Basic Multilingual Plane the source takes half of a surrogate pair, the model the whole character.
- JsString.Slice: counts Unicode scalar values, not UTF-16 code units; see the two lines above.
- Utils.TruncateText: `maxLength` is a natural number. A negative `maxLength`, where `slice` counts from the end, is not modelled.
- Chat.ChatScreen.ChangeText: the text field's `maxLength={500}` is modelled only as a precondition on the change handler, since the platform enforces it, not the screen's code.
- Avatar.Content: models `source` as a `{ uri }` object or a numeric asset id, and `name` as an optional string. Other JavaScript values are ruled out by the prop types. The avatar size and styles are not modelled.
