# Manosaba meme plugin: option layout, asset paths and input validation

This project models the deterministic core of a chat-bot plugin that draws
"trial" meme images: a character speaks a list of options, and each option
carries a statement kind and an icon. Three pieces are modelled.

- **Layout engine** (`drawer.py`). `get_option_coordinates` maps an option
  count to one anchor per option, centred on `OPTION_START_Y`. `draw_trial`
  then pairs each option with its anchor.
- **Asset paths** (`drawer.py`). `get_anan_base_image` picks Anan's face image
  and refuses any face outside a five-entry whitelist. `get_statement_image`
  maps each statement kind to its icon.
- **Validation layer** (`utils.py`, `models.py`).
  - Whitespace normalisation.
  - Closed lookup tables from user input to the `Statement` and `Character`
    enumerations, where every failure is an error and never a default.
  - The validating constructor of a trial `Option`.

Modules:

- `Wrappers` holds `Optional` (a Python `None`-able argument) and `Result` (a
  value or the `ValueError` the source would raise).
- `Text` models the parts of Python's `str` that the code relies on:
  `strip()`, argument-less `split()`, `' '.join(...)` and single-character
  `replace`.
- `Models`, `Utils` and `Drawer` follow `models.py`, `utils.py` and
  `drawer.py`.

Every operation is pure.

The plugin directory (`PLUGIN_PATH`) is a parameter `root`. Paths are strings
joined with `/`.

The even-count branch of the layout uses floats in the source; the model
uses doubled integers instead: `int(200 / (k - 0.5))` becomes
`400 // (2k - 1)`, and `int(364 + p * (i + 0.5))` becomes
`(728 + p * (2i + 1)) // 2`. The divisors `k - 0.5` and `k + 0.5` and the
anchor values `364 + p * (i + 0.5)` are exact half-integers, so the second
form and the divisors are exact. The quotients are not: `200 / 1.5` is
133.33... . But a quotient is at most 400, and when it is not a whole
number it lies at least `1 / (2k - 1)` (or `1 / (2k + 1)`) below the next
whole number. A correctly rounded division errs by far less than that, so
rounding never reaches that whole number, and `int()` of the float quotient
equals the integer floor quotient. Python's `int()` of a quotient is written out as
`TruncDiv` (rounding toward zero), and `available_height // count` as
`FloorDiv` (rounding toward negative infinity). `math.floor(number / 2)`,
`number // 2` and `number % 2` use Dafny's own `/` and `%`. Those are
Euclidean, which agrees with Python's floor division and modulo whenever the
divisor is positive, as 2 is, for counts of either sign.

Observations on the layout, all proved, about the code as written:

- The docstring says the padding spreads the options "between START_Y and
  END_Y". The code actually centres them on `OPTION_START_Y`, and they extend
  `AVAILABLE_HEIGHT` (200 px) above and below it. The model follows the code.
- For an even count `2k`, the lower bound `400 / (2k + 1)` always binds
  (`EvenPaddingValue`). The padding is budgeted for `k + 0.5` steps below the
  centre, although the last anchor sits only `k - 0.5` steps below it. Even
  layouts are therefore tighter than the band allows. For example, two options
  get 133 px and not 286 px.
- The code has no bound on the count.
  - The padding is positive exactly for counts 1 to 399 and for 401
    (`PaddingPositiveIff`).
  - From 402 options on, and for 400, the padding is 0 and every option is
    drawn at `OPTION_START_Y`, one on top of the other (`AnchorsCollapse`).
  - A count of zero or less yields no anchors.

## Model

| member | source | states |
|---|---|---|
| `Text.Strip` | utils.py:32 | `strip()`: the result is no longer than the input and has no whitespace at either end; it is empty exactly when the input is all whitespace |
| `Text.LStrip` | utils.py:32 | `lstrip()`: the result is a suffix of the input, everything dropped is whitespace, and the result does not start with whitespace |
| `Text.RStrip` | utils.py:32 | `rstrip()`: the mirror image of `LStrip` |
| `Text.StripMiddle` | utils.py:32 | `strip()` of whitespace + a trimmed middle + whitespace is exactly the middle |
| `Text.StripTrimmed` | models.py:91 | stripping a string that has no surrounding whitespace changes nothing |
| `Text.Replace` | utils.py:35 | `replace(from, to)` keeps the length, turns every `from` into `to` and keeps every other character, so no `from` is left when the two differ |
| `Text.Split` | utils.py:38 | `split()` produces only non-empty tokens free of whitespace; with `SplitAtSpaceRun`, `SplitWord` and `SplitEmpty` this determines `split()` on every input |
| `Text.SplitAtSpace` | utils.py:38 | a whitespace character separates: the tokens of `x + c + y` are those of `x` followed by those of `y` |
| `Text.SplitAtSpaceRun` | utils.py:37-38 | a run of any number of whitespace characters is a single separator, so consecutive whitespace splits like one space |
| `Text.SplitDoubleSpaceExample` | utils.py:37-38 | two tokens separated by two spaces split into the same two tokens as with one space |
| `Text.SplitStrip` | utils.py:32-38 | stripping first does not change the tokens `split()` finds |
| `Text.SplitReplaceSpace` | utils.py:35-38 | replacing one whitespace character by another does not change the tokens, which is why turning U+3000 into a space is harmless |
| `Text.SplitEmpty` | utils.py:38 | `split()` finds no tokens exactly when the input is all whitespace |
| `Text.JoinWithSpace` | utils.py:38 | `' '.join`: no contract of its own; `JoinLayout`, `JoinShape` and `SplitJoin` state what it produces |
| `Text.JoinLayout` | utils.py:38 | `' '.join` of a non-empty list starts with the first token, ends with the last, and is as long as all the tokens plus one separator between each two |
| `Text.JoinShape` | utils.py:38 | `' '.join` of tokens is trimmed, uses only plain spaces, never two in a row, and is empty exactly when there are no tokens |
| `Text.SplitJoin` | utils.py:38 | `split()` recovers exactly the tokens that `' '.join` put together |
| `Text.SplitWord` | utils.py:38 | a single token splits into itself |
| `Models.CharacterMembers` | models.py:27-31 | `Character` has exactly two members, with distinct string values |
| `Models.StatementMembers` | models.py:34-53 | `Statement` has exactly seventeen members, the last thirteen magic, with pairwise distinct string values |
| `Models.NewOption` | models.py:86-98 | whitespace-only text, at any length, is refused as empty; otherwise stripped text over 200 characters is refused as too long; otherwise the option keeps the statement and stores the stripped text, which is non-empty, at most 200 characters and trimmed |
| `Models.NewOptionRoundTrip` | models.py:86-98 | rebuilding an option from its own fields returns it unchanged exactly when it is valid |
| `Models.NewOptionIdempotent` | models.py:69-98 | construction never changes the statement, and constructing again from a constructed option reproduces it |
| `Models.NewOptionBlankExamples` | models.py:87-88 | `""`, three spaces and 300 spaces are all refused as empty, not as too long |
| `Models.NewOptionLengthExamples` | models.py:91-95 | 200 characters pass, 201 are refused, and surrounding spaces do not count toward the limit |
| `Models.NewOptionStripsExample` | models.py:97-98 | `"  ok  "` is stored as `"ok"` |
| `Utils.NormalizeText` | utils.py:14-40 | the result is single-spaced (trimmed, only plain spaces, never two in a row), has exactly the input's tokens, and is empty exactly when the input is all whitespace |
| `Utils.NormalizeTextJoinsTokens` | utils.py:32-38 | normalising means joining the input's tokens with single spaces |
| `Utils.NormalizeTextIdempotent` | utils.py:28-40 | normalising twice is the same as normalising once |
| `Utils.NormalizeTextSameTokens` | utils.py:32-38 | two inputs normalise to the same string exactly when they have the same tokens |
| `Utils.NormalizeTextPadded` | utils.py:32-38 | a single token surrounded by any whitespace normalises to the token |
| `Utils.MagicNameOf` | utils.py:68-82 | every witch's name in the magic table is a single token |
| `Utils.MagicTableBijective` | utils.py:68-82 | the magic table maps the thirteen names one-to-one onto the thirteen magic kinds, and `MagicNameOf` is its inverse |
| `Utils.GetMagicStatement` | utils.py:43-91 | empty input is an error; whitespace-only input is a different error; any other failure is the unknown-name error quoting the raw input; a success is always a magic kind |
| `Utils.GetMagicStatementExact` | utils.py:63-91 | the result is kind `s` exactly when `s` is magic and the input normalises to `s`'s name: no prefixes, nothing forgiven but whitespace |
| `Utils.MagicNamePadded` | utils.py:62-91 | a witch's name surrounded by any whitespace, including full-width spaces, selects her magic kind |
| `Utils.MagicNameUnknownExample` | utils.py:85-90 | a name outside the table is refused, and the error quotes the input |
| `Utils.MagicNameBlankExample` | utils.py:59-66 | `""` and `"  "` are refused, each with its own error |
| `Utils.KindNameOf` | utils.py:110-119 | every statement keyword is a single token |
| `Utils.MatchStatementKind` | utils.py:110-124 | a keyword outside the five is the unknown-kind error quoting the raw keyword; the magic keyword without a usable argument is the missing-name error; with one, the result is the magic-name lookup |
| `Utils.MatchStatementKindExact` | utils.py:110-124 | the match yields kind `s` exactly for `s`'s keyword, together with a resolvable name when `s` is magic |
| `Utils.GetStatement` | utils.py:94-124 | the same three error and delegation facts, stated for the normalised keyword |
| `Utils.GetStatementExact` | utils.py:107-124 | the result is `s` exactly when the keyword normalises to `s`'s keyword and, for a magic `s`, the argument selects `s`; a plain kind ignores the argument |
| `Utils.StatementPlainPadded` | utils.py:108-118 | each plain keyword, surrounded by any whitespace, selects its kind whatever the argument |
| `Utils.StatementMagicPadded` | utils.py:119-122 | the magic keyword with a witch's name, both surrounded by any whitespace, selects her magic kind |
| `Utils.StatementMagicMissingExample` | utils.py:119-121 | the magic keyword with no argument or an empty one is refused |
| `Utils.StatementUnknownKindExample` | utils.py:123-124 | a keyword fragment is not a keyword |
| `Utils.CharacterNameOf` | utils.py:152-155 | each character's name is a single token |
| `Utils.CharacterTableBijective` | utils.py:152-155 | the character table maps the two names one-to-one onto the two characters |
| `Utils.GetCharacter` | utils.py:127-163 | empty input is an error; whitespace-only input is a different error; any other failure is the unknown-name error quoting the raw input |
| `Utils.GetCharacterExact` | utils.py:146-163 | the result is character `c` exactly when the input normalises to `c`'s name |
| `Utils.CharacterPadded` | utils.py:146-158 | a character's name surrounded by any whitespace selects that character |
| `Utils.CharacterMagicNameExample` | utils.py:152-162 | a witch's name that is valid for magic statements is not a trial character |
| `Utils.CharacterBlankExample` | utils.py:143-150 | `""` and a lone full-width space are refused, each with its own error |
| `Drawer.FloorDivIsFloor` | drawer.py:173-179 | `FloorDiv` is Python's `//`: the quotient rounded toward negative infinity, for either sign of the divisor |
| `Drawer.TruncDivNonNegative` | drawer.py:197-207 | `TruncDiv`, Python's `int()` of a quotient, rounds a non-negative dividend down and then agrees with `//` |
| `Drawer.TruncDivNegative` | drawer.py:197-207 | `TruncDiv` rounds a negative dividend up, toward zero |
| `Drawer.Min3` | drawer.py:184 | `min` of three values: at most each of them and equal to one of them |
| `Drawer.Range` | drawer.py:189 | `range(lo, hi)` has `max(0, hi - lo)` elements, counting up from `lo` |
| `Drawer.OddPadding` | drawer.py:164-184 | the odd-count padding never exceeds `MAX_PADDING` and is never negative for non-negative side counts; its exact value is `OddPaddingValue` |
| `Drawer.EvenPadding` | drawer.py:191-203 | the even-count padding never exceeds `MAX_PADDING` and is never negative for non-negative side counts; its exact value is `EvenPaddingValue` |
| `Drawer.LayoutPadding` | drawer.py:162-203 | the padding for a count never exceeds `MAX_PADDING` and is never negative for a count of zero or more; `PaddingIsLargestFit` characterises it completely |
| `Drawer.OptionCoordinates` | drawer.py:147-209 | one anchor per option (none for a count of zero or less), every anchor at `x = OPTION_START_X` |
| `Drawer.OddPaddingValue` | drawer.py:164-184 | for an odd count `2k + 1` the padding is `min(286, 200 // k)` |
| `Drawer.EvenPaddingValue` | drawer.py:191-203 | for an even count `2k` the lower bound binds: the padding is `min(286, 400 // (2k + 1))` |
| `Drawer.PaddingIsLargestFit` | drawer.py:162-203 | the padding lies between 0 and `MAX_PADDING`, fits its budgeted half-steps into twice `AVAILABLE_HEIGHT`, and is as large as possible under that cap |
| `Drawer.PaddingUnique` | drawer.py:162-203 | no other value has the largest-fit property, so it characterises the padding completely |
| `Drawer.AnchorY` | drawer.py:186-209 | for an odd count anchor `j` sits `j - n // 2` paddings from `OPTION_START_Y`; for an even count it sits `j - n // 2 + 1/2` paddings from it, truncated, and the truncated value is non-negative so truncation is floor division |
| `Drawer.EvenNumeratorNonNegative` | drawer.py:206-209 | the value truncated in the even branch is never negative, so `int()` agrees with floor division |
| `Drawer.EvenOffsetBounded` | drawer.py:196-209 | in the even branch every anchor's offset from `OPTION_START_Y`, counted in half-pixels, is within `2 * AVAILABLE_HEIGHT`, that is within `AVAILABLE_HEIGHT` pixels |
| `Drawer.OddOffsetBounded` | drawer.py:172-190 | in the odd branch every anchor's offset from the centre is within `AVAILABLE_HEIGHT` |
| `Drawer.AnchorsArithmetic` | drawer.py:186-209 | the anchors' `y` values form an arithmetic progression whose step is the padding |
| `Drawer.AnchorsEvenlySpaced` | drawer.py:150-154 | consecutive anchors are exactly one padding apart |
| `Drawer.AnchorsWithinBand` | drawer.py:162-209 | every anchor lies within `AVAILABLE_HEIGHT` of `OPTION_START_Y`, so every option box ends at or above `OPTION_END_Y` (three options put the lowest box's bottom exactly at 780) |
| `Drawer.OddMiddleAtStart` | drawer.py:150-190 | for an odd count the middle anchor is exactly at `OPTION_START_Y` |
| `Drawer.EvenMiddleStraddles` | drawer.py:150-209 | for an even count the two middle anchors straddle `OPTION_START_Y`, and the upper one is strictly above it exactly when the padding is positive |
| `Drawer.PaddingPositiveIff` | drawer.py:172-203 | the padding is positive exactly for counts 1 to 399 and 401 |
| `Drawer.AnchorsIncreasingIff` | drawer.py:150-209 | with two or more options, the anchors strictly increase exactly when the padding is positive |
| `Drawer.AnchorsCollapse` | drawer.py:184-209 | with zero padding every option is drawn at `OPTION_START_Y` |
| `Drawer.LayoutOfNone` | drawer.py:147-209 | zero options get no anchors |
| `Drawer.LayoutOfOne` | drawer.py:164-190 | one option: `[(29, 364)]` |
| `Drawer.LayoutOfTwo` | drawer.py:191-209 | two options: `y = 297, 430` |
| `Drawer.LayoutOfThree` | drawer.py:164-190 | three options: `y = 164, 364, 564` |
| `Drawer.LayoutOfFour` | drawer.py:191-209 | four options: `y = 244, 324, 404, 484` |
| `Drawer.LayoutOfFive` | drawer.py:164-190 | five options: `y = 164, 264, 364, 464, 564` |
| `Drawer.OptionBox` | drawer.py:247 | the option frame is `OPTION_WIDTH` by `OPTION_HEIGHT` with its top-left corner at the anchor |
| `Drawer.TextBox` | drawer.py:252-257 | the text region is `TEXT_WIDTH` by `TEXT_HEIGHT` and lies wholly inside the option frame |
| `Drawer.IconBox` | drawer.py:266-271 | the icon region is `STATEMENT_ICON_WIDTH` by `STATEMENT_ICON_HEIGHT`, within the frame's width, overhangs the frame's top edge and starts left of the text region |
| `Drawer.Zip` | drawer.py:243 | `zip` is as long as the shorter input and pairs the elements at equal positions |
| `Drawer.AnchorsInsideImage` | drawer.py:244-273 | at every anchor the option frame, its text region and its statement icon lie inside the 1260 x 1080 image |
| `Drawer.TrialPlacements` | drawer.py:242-243 | option `i` is paired with anchor `i` of the layout for the number of options; no option is dropped, the order is kept, and each option is drawn inside the image |
| `Drawer.BaseName` | drawer.py:82 | `Path(face).name` contains no `/`, is a suffix of its input, and is cut exactly at a `/` |
| `Drawer.BaseNameIdentity` | drawer.py:81-83 | taking the final component changes a name exactly when the name contains a `/` |
| `Drawer.AnanBaseImage` | drawer.py:60-83 | no face gives `assets/anan/base.png`; a face outside the whitelist is an error naming it; a whitelisted face gives `assets/anan/<face>.png` |
| `Drawer.AnanBaseImageConfined` | drawer.py:74-83 | every path returned names `base.png` or a whitelisted face's `.png` directly inside `assets/anan`, never anything outside it |
| `Drawer.AnanTraversalRefused` | drawer.py:77-79 | `"../../etc/passwd"` is refused by the whitelist |
| `Drawer.IconStem` | drawer.py:125-143 | every kind's icon file has a non-empty stem; `StatementIconFileInjective` shows the stems are distinct |
| `Drawer.StatementIconFile` | drawer.py:125-143 | each of the seventeen kinds has an icon file ending in `.png` |
| `Drawer.StatementIconFileInjective` | drawer.py:125-143 | distinct kinds have distinct icon files |
| `Drawer.StatementImage` | drawer.py:116-144 | a statement's image is its icon file inside `assets/trial` |
| `Drawer.StatementImageInjective` | drawer.py:116-144 | distinct kinds get distinct image paths |

## Left out

- `draw_anan` and the rendering in `draw_trial` (drawer.py:86-113, 212-276). They call an external renderer (fonts, colours, pixels, encoding). Only the anchor per option and the three regions drawn at each anchor are modelled.
- The portrait choice in `draw_trial` (drawer.py:235) and the other fixed asset paths there. They are plain constants.
- main.py, the bot's command handlers. It covers parsing, temporary files, logging and the per-session default map.
- The `isinstance` check of `Option` (models.py:80-84). Dafny's types already rule it out.
- `Option.__repr__` and the `StrEnum` base class. They are cosmetic.
- The wording of the error messages. Each distinct `ValueError` is an error constructor, carrying the raw input where the message quotes it.
- Models.NewOption: the in-place overwrite of `self.text` is modelled as the stripped text stored in the returned option. A Dafny `Option` value can also be built directly; `ValidOption` states what construction guarantees.
- Text.Strip: Python's full Unicode whitespace table is not modelled. Whitespace here is space, tab, line feed, carriage return, vertical tab, form feed and U+3000.
- Drawer.OptionCoordinates: `math.floor(number / 2)` and the even-branch float arithmetic are modelled with exact integers. This agrees with Python while `number / 2`, the divisors `k - 0.5` and `k + 0.5`, and the anchor values are exact doubles, that is, for counts below 2^52. The float quotients themselves need not be exact: their rounding never crosses a whole number, so `int()` still gives the floor quotient.
- Drawer.BaseName: only the cut at the last `/` is modelled. `Path.name`'s handling of a trailing `/`, of `.` and of other path normalisation is not. Only whitelisted faces reach it, and none of them contains a `/` or a dot.
- Drawer.StatementImage: states that the icon file follows the `assets/trial/` prefix. It does not state that the file name contains no `/`.
- `PLUGIN_PATH` is the parameter `root`. The normalisation `str(Path(...))` applies is not modelled.
