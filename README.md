# git-status colored output buffer, in Dafny

This project models the output side of `git-status`. That program prints one
line per changed path, in the style of `git status --porcelain=v2`.

Two parts are modelled:

- **`ColoredStrings`** (`colored_string.dfy`) models `src/colored_string.rs`.
  `ColoredString` is an append-only text buffer. Beside the text it keeps a
  list of colour markers. Each marker is an offset into the text and a
  foreground colour. `Colored` renders the buffer: it copies the text and
  splices an ANSI "Select Graphic Rendition" escape in at every marker.
  - The class keeps the source's two fields (`raw`, `markers`). Its methods
    change them in place.
  - `Colored` keeps the source's loop. It is proved equal to the recursive
    specification `Render`.
  - Lemmas state what the rendering looks like:
    - where each text character lands;
    - where each escape lands;
    - that escapes at one offset come out back to back;
    - how appending text or setting a colour extends the old rendering.
- **`StatusFormat`** (`status_format.dfy`) models `status_to_string` and
  `submodule_status_to_string` from `src/main.rs`.
  - The git2 status bit sets become records of the boolean questions the
    source asks (`Status`, `SubmoduleStatus`).
  - Each `if`/`else if` chain that pushes one character is a method. A
    function beside it states that character.
  - `StatusCode` is the nine characters one call appends.
  - `StatusCodeRendered` says what such a line renders to, including the
    BLACK escape before a submodule's `S`.

The source declares the buffer parameter as `&ret: ColoredString`, which is
not valid Rust for a value that is then mutated. The model reads it as a
mutable reference: the formatters take a `ColoredString` object and modify it.

Text is a sequence of characters. Every offset in a marker is the text length
at the moment the marker was recorded. So every offset falls on a character
boundary, and character offsets and the source's byte offsets pick out the
same slices.

## Model

| member | source | states |
|---|---|---|
| ColoredStrings.Color.Code | src/colored_string.rs:6-15 | every colour's integer value is one of 0..7 |
| ColoredStrings.ColorOfCode | src/colored_string.rs:6-15 | the colour with a given value in 0..7, inverse of `Code` |
| ColoredStrings.DecimalString | src/colored_string.rs:39 | the integer's `to_string` is a non-empty string of decimal digits |
| ColoredStrings.DecimalStringIsOneDigit | src/colored_string.rs:32-34 | a value is written with one character exactly when it is below ten, and that digit has the value |
| ColoredStrings.ColorMarker | src/colored_string.rs:18-21 | a marker is a text offset and the foreground colour that starts there |
| ColoredStrings.EscapeStart | src/colored_string.rs:30 | the corrected escape prefix ESC `[3`; the literal as written is U+0000 "33[3" (see Findings) |
| ColoredStrings.EscapeEnd | src/colored_string.rs:31 | the escape terminator "m" |
| ColoredStrings.EscapeLen | src/colored_string.rs:32-34 | the escape length, defined as the source defines it: prefix length + 1 + terminator length; with the corrected prefix this is 5 |
| ColoredStrings.WrittenEscapeStart | src/colored_string.rs:30 | the prefix as the literal actually decodes: U+0000 then "33[3" |
| ColoredStrings.WrittenEscapeLen | src/colored_string.rs:32-34 | the length the source's constants evaluate to, from the prefix as written |
| ColoredStrings.EscapeLengths | src/colored_string.rs:30-34 | the corrected escape is 5 characters, while `ANSII_ESCAPE_LEN` as written evaluates to 7 |
| ColoredStrings.Escape | src/colored_string.rs:36-43 | an escape is the corrected prefix, one digit, terminator; its length is `EscapeLen` (5), not the 7 the source's constant evaluates to |
| ColoredStrings.EscapeRoundTrip | src/colored_string.rs:36-43 | reading an escape back gives the colour it was built from |
| ColoredStrings.EscapeInjective | src/colored_string.rs:36-43 | two escapes are equal if and only if their colours are |
| ColoredStrings.EscapeIsSgrForeground | src/colored_string.rs:29-31 | the escape with the corrected prefix is the SGR sequence ESC `[3` n `m` for the colour's value n |
| ColoredStrings.WrittenEscape | src/colored_string.rs:30-34 | the escape built from the prefix as written is 7 characters long and starts with U+0000 "33[3" |
| ColoredStrings.WrittenEscapeIsNotSgr | src/colored_string.rs:30 | the escape as written starts with NUL and is no SGR sequence for any colour value |
| ColoredStrings.MarkersWithin | src/colored_string.rs:60-66 | the buffer invariant, list by list: each marker offset lies between the offset before it and the text length |
| ColoredStrings.ColoredString.Valid | src/colored_string.rs:24-27 | the buffer's markers satisfy `MarkersWithin` from offset 0 to the text length |
| ColoredStrings.MarkersWithinIsOrdered | src/colored_string.rs:60-66 | the buffer invariant holds if and only if every marker offset lies within the text and offsets never decrease in list order |
| ColoredStrings.EscapesLenIsProduct | src/colored_string.rs:78-94 | the escapes of n markers take n times `EscapeLen` characters |
| ColoredStrings.RenderFrom | src/colored_string.rs:84-91 | the rendering of the text from an offset is as long as that text plus one escape per marker |
| ColoredStrings.Render | src/colored_string.rs:78-94 | what `colored()` returns for a buffer; it is as long as the text plus one escape per marker |
| ColoredStrings.RenderNoMarkers | src/colored_string.rs:78-94 | with no markers the rendering is the text itself |
| ColoredStrings.RenderTextAt | src/colored_string.rs:84-91 | text character k appears in the rendering at k plus the length of the escapes of the markers at or before k |
| ColoredStrings.RenderEscapeAt | src/colored_string.rs:84-89 | the escape of marker i sits at the marker's offset plus the length of the i escapes before it |
| ColoredStrings.SameOffsetBackToBack | src/colored_string.rs:84-89 | two markers at one offset give their two escapes back to back, in order, with no text between them |
| ColoredStrings.MarkersWithinGrow | src/colored_string.rs:69-76 | appending text keeps the invariant |
| ColoredStrings.MarkersWithinAppend | src/colored_string.rs:60-66 | a marker at the end of the text keeps the invariant |
| ColoredStrings.RenderAppendText | src/colored_string.rs:69-76 | after appending text the rendering is the old rendering followed by that text |
| ColoredStrings.RenderAppendMarker | src/colored_string.rs:60-66 | after setting a colour the rendering is the old rendering followed by the colour's escape |
| ColoredStrings.RenderTextColorText | src/colored_string.rs:60-76 | appending text a, setting colour c and appending text b renders as the old rendering, a, the escape of c, then b |
| ColoredStrings.ColoredString.constructor | src/colored_string.rs:46-51 | a new buffer has no text and no markers |
| ColoredStrings.ColoredString.WithCapacity | src/colored_string.rs:53-58 | a buffer made with a capacity is the same as a new one |
| ColoredStrings.ColoredString.SetFgColor | src/colored_string.rs:60-66 | records a marker at the current text length, leaves the text alone, keeps the invariant |
| ColoredStrings.ColoredString.Push | src/colored_string.rs:68-71 | appends one character, leaves the markers alone, keeps the invariant |
| ColoredStrings.ColoredString.PushStr | src/colored_string.rs:73-76 | appends a string, leaves the markers alone, keeps the invariant |
| ColoredStrings.ColoredString.Colored | src/colored_string.rs:78-94 | the loop returns `Render` of the buffer; without markers that is the text; its length is the text length plus one escape per marker |
| ColoredStrings.ThreeColorRender | src/colored_string.rs:78-94 | "abc", RED, "def", BLUE, "ghi" renders as "abc", RED's escape, "def", BLUE's escape, "ghi" |
| ColoredStrings.ThreeColorBytes | src/colored_string.rs:36-43 | those pieces are, character by character, "abc" ESC "[31m" "def" ESC "[34m" "ghi" |
| ColoredStrings.ThreeColorScenario | src/colored_string.rs:60-94 | building that buffer through the class and rendering it gives that string |
| ColoredStrings.LoneColorScenario | src/colored_string.rs:60-94 | a colour set on an empty buffer renders as ESC "[32m" alone |
| ColoredStrings.CapacityScenario | src/colored_string.rs:53-94 | a buffer made with capacity 100 holding "x" renders as "x" |
| StatusFormat.Unchanged | src/main.rs:59-62 | the "nothing to report" character is a blank if and only if colouring, otherwise '.' |
| StatusFormat.EntryField | src/main.rs:35-45 | for each character, if and only if: '!' when ignored; '?' when new in the worktree and not ignored; 'u' when conflicted and neither earlier flag; '2' when renamed in index or worktree and no earlier flag; '1' when none of these |
| StatusFormat.IndexField | src/main.rs:49-63 | for each character, if and only if: '?', 'M', 'D', 'R', 'T' when its flag is the first set in that order; ' ' when colouring and no index flag; '.' when not colouring and no index flag |
| StatusFormat.WorktreeField | src/main.rs:65-77 | for each character, if and only if: 'M', 'D', 'T', 'R' when its flag is the first set in that order; ' ' when colouring and no worktree flag; '.' when not colouring and no worktree flag |
| StatusFormat.SubmoduleHeadField | src/main.rs:95-107 | for each character, if and only if: 'H', 'I', 'C', 'W' when its flag is the first set in that order; ' ' when colouring and none; '.' when not colouring and none |
| StatusFormat.SubmoduleIndexField | src/main.rs:109-117 | for each character, if and only if: 'A', 'D', 'M' when its flag is the first set in that order; '.' when none, even when colouring |
| StatusFormat.SubmoduleWorktreeField | src/main.rs:119-135 | for each character, if and only if: 'U' when uninitialised, or untracked with no flag in between; 'A', 'D', 'M', 'W' when its flag is the first set after uninitialised; ' ' when colouring and none; '.' when not colouring and none |
| StatusFormat.SubmoduleCode | src/main.rs:92-135 | the submodule part is 'S' then the presence, index and worktree characters |
| StatusFormat.StatusCode | src/main.rs:33-85 | a status code is nine characters: kind, blank, index, worktree, blank, then "N..." or the submodule part |
| StatusFormat.UncoloredBlanksAreSeparators | src/main.rs:33-136 | without colouring, a character of the code is a blank if and only if it is one of the two separators |
| StatusFormat.ColoredDotsOnlyInSubmodulePart | src/main.rs:33-136 | with colouring, a character is '.' if and only if it is in "N..." or is an empty submodule index character |
| StatusFormat.StatusCodeRendered | src/main.rs:81-93 | a status line renders as the old rendering plus the code, with BLACK's escape just before 'S' when there is a submodule status |
| StatusFormat.PushEntryField | src/main.rs:35-45 | appends the entry character and nothing else |
| StatusFormat.PushIndexField | src/main.rs:49-63 | appends the index character and nothing else |
| StatusFormat.PushWorktreeField | src/main.rs:65-77 | appends the worktree character and nothing else |
| StatusFormat.PushSubmoduleHeadField | src/main.rs:95-107 | appends the submodule presence character and nothing else |
| StatusFormat.PushSubmoduleIndexField | src/main.rs:109-117 | appends the submodule index character and nothing else |
| StatusFormat.PushSubmoduleWorktreeField | src/main.rs:119-135 | appends the submodule worktree character and nothing else |
| StatusFormat.SubmoduleStatusToString | src/main.rs:87-136 | appends the submodule part and records one BLACK marker at the offset of its 'S' |
| StatusFormat.StatusToString | src/main.rs:27-85 | appends the nine-character status code; with a submodule status it records one BLACK marker five characters into it, otherwise no marker |

## Left out

- `main`, argument parsing, repository discovery and the current-directory helper: these are I/O around the core.
- The git2 `Status` and `SubmoduleStatus` bit sets are not modelled. Only the boolean predicates the formatters query are kept, as record fields that can take any values.
- Capacity hints (`with_capacity` and the reservations inside `ansii_escape_str` and `colored`) only reserve memory. They have no observable effect, so the model drops them.
- The `int_enum` derive machinery is left out. Only the colour-to-integer mapping it provides is kept, as `Code` and `ColorOfCode`.
- UTF-8 encoding is left out: text is a sequence of characters. All characters the formatters push are ASCII, and marker offsets always fall on character boundaries.
- Overflow of `usize` offsets is not modelled (integers are unbounded). No realistic buffer comes near that limit.
- `ColoredString.SetFgColor`, `Push` and `PushStr` state the new fields and the invariant, not the new rendering. The rendering after each of them is stated by `RenderAppendMarker` and `RenderAppendText`.
- Reuse of one buffer across many status lines in `main` is left out. `StatusCodeRendered` covers any earlier content of the buffer.

## Findings

The escape prefix `ANSII_ESCAPE_START` is written as `"\x0033[3"`. In Rust `\x` takes exactly two hex digits, so this literal is U+0000 followed by the four characters `33[3`. A terminal does not read that as a colour escape. The intended prefix is ESC `[3`, the standard non-bright foreground SGR prefix. The model uses the corrected prefix everywhere else.

| source | as written | input that shows it | evidently intended | confidence | as-written member | corrected member |
|---|---|---|---|---|---|---|
| src/colored_string.rs:30 | prefix is NUL then "33[3", so every escape is 7 characters starting with NUL | `set_fg_color(RED)` then `colored()` yields NUL "33[31m" | prefix ESC "[3", so RED renders as ESC "[31m" (5 characters) | high, not executed | ColoredStrings.WrittenEscapeIsNotSgr | ColoredStrings.EscapeIsSgrForeground |
