# lolcapture in Dafny

A Dafny model of the decision, lookup and geometry logic in `lolcapture`. This
command-line tool photographs the user with the webcam after each git commit,
draws the commit's hash and subject over the picture, and saves it as a JPEG.
The camera session, AppKit drawing and process spawning are left out. What is
modelled is the pure logic around them, written as functions over immutable
datatypes:

- **Device selection** (`CamSnapper`, `Capture`). The platform's device list is
  filtered by a substring query. Only the device's id and name are lowercased,
  not the query. Selection has three outcomes: one device, an ambiguous match
  (exit code 1), or nothing found (exit code 13).
- **Command-line options and caption precedence** (`Capture`, `Config`). Each
  `key=value` argument is split and dispatched on its key. An exiting option
  (help, listing, unknown key) becomes a result variant. The switch's labels
  are classified once into a `Flag` (`Capture.FlagOf`), so every contract
  speaks of flags, not of their spellings. The two captions are
  chosen by precedence: a parsed value first, then a test value, then git.
- **Aspect-fill crop and caption geometry** (`LOLImage`). The crop rectangle
  is worked out over exact `real` coordinates. So are the fixed 640x480 output
  and the caption boxes inside the 10-point margins.
- **Layered configuration** (`FancyConfig`). An option's value comes from a
  manual setting, else the environment, else git config, else its default.
  The option also reports which of these layers supplied the value.
- **The `config` table** (`ConfigCommand`). Truncation and left justification
  lay out 80-column rows.
- **Parsing git output** (`GitInfo`). The NUL/newline records of
  `git config -z` become a dictionary. The two lines of `git show` become a
  hash and a subject. The `git` binary is the first path in a fixed list that
  exists.

The Swift code threads state through static variables. Here that state is a
value passed in and returned. Outside inputs are parameters:

- the device enumeration and the preferred device;
- the lowercasing function;
- the environment and the git config table;
- number and boolean parsing;
- the file-existence test;
- the random test hash;
- a command's exit code and output.

The helper modules are `Optional` (optional values, plus `FirstSome`, the
"first present value" reference for precedence chains) and `Text`. `Text`
holds the Foundation string operations the code relies on: splitting on one
character, joining, substring search, ASCII lowercasing and repetition.

Points where the code's behaviour is narrower than its own comments suggest:

- `CamSnapper.swift:26` documents that a device is returned when "either the
  ID or name matches the query string". In `CamSnapper.swift:30-31` only the
  device fields are lowercased; the query is used as given. With ASCII
  lowercasing, a query containing a capital letter matches nothing
  (`CamSnapper.UppercaseQueryMatchesNothing`).
- Foundation's `rangeOfString` never finds an empty string. So `--device=`
  (an empty id) matches no device, and selection ends with exit code 13.
- `LOLImage.swift:53` calls the resize one that "preserves aspect ratio". The
  wide-frame branch keeps the full height and three quarters of the width,
  which has the target's 4:3 shape only for a 16:9 frame
  (`LOLImage.WideCropAspect`). The tall-frame branch keeps the full width and
  makes the height three quarters of it. That crop lies inside the frame for
  every target no wider than 4:3, the fixed 640x480 among them
  (`LOLImage.NarrowTargetCropInside`, `LOLImage.FixedTargetCropInside`). A
  wider target can make it extend past the frame
  (`LOLImage.OtherTargetMayCropOutside`).
- `--warmup` writes the delay of the `Config` struct
  (`Capture.swift:106-111`). Here the delay is a field of the one `Options`
  value that option processing threads through.
- `Capture` models the static `Options` struct of Capture.swift, whose
  captions fall back to git. `Config` models the `Config` struct of
  Config.swift, whose captions fall back only to test values. The other
  `Config` struct, in config.swift, is left out (see below).

## Model

| member | source | states |
|---|---|---|
| CamSnapper.CompatibleDevices | lolcapture/CamSnapper.swift:20-24 | None exactly when the platform lists no device; otherwise the list unchanged |
| CamSnapper.Select | lolcapture/CamSnapper.swift:29-32 | the filter keeps exactly the devices satisfying the predicate, and its result is an order-preserving subsequence of the input |
| CamSnapper.SelectAppend | lolcapture/CamSnapper.swift:29-32 | filtering a concatenation is concatenating the filtered parts, so enumeration order is preserved |
| CamSnapper.DevicesMatchingString | lolcapture/CamSnapper.swift:27-39 | never an empty list; None iff no enumerated device matches (including an empty enumeration); otherwise a device is returned iff it is enumerated and its lowercased id or name contains the query, in enumeration order |
| CamSnapper.MatchesAreFilter | lolcapture/CamSnapper.swift:28-36 | the returned matches are precisely the filter of the enumeration by the match predicate |
| CamSnapper.UppercaseQueryMatchesNothing | lolcapture/CamSnapper.swift:30-31 | matching lowercases only the device side: with ASCII lowercasing, a query holding a capital letter yields None |
| CamSnapper.EmptyQueryMatchesNothing | lolcapture/CamSnapper.swift:30-31 | an empty query matches no device |
| Text.UppercaseNeverContained | lolcapture/CamSnapper.swift:30-31 | a string with no capital letters cannot contain a needle holding one |
| Text.JoinSplit | lolcapture/GitInfo.swift:37-39 | splitting on a separator loses nothing: re-joining the pieces gives back the input |
| Text.SplitJoin | lolcapture/GitInfo.swift:37-39 | separator-free pieces joined and split again come back unchanged |
| Capture.FinalMessage | lolcapture/Capture.swift:59-63 | a parsed message wins regardless of test mode or git; without one, test mode gives the fixed test message even when git has a subject; otherwise the git subject, possibly None |
| Capture.FinalSha | lolcapture/Capture.swift:68-72 | the same precedence for the hash: parsed, then the test hash in test mode, then git |
| Capture.CaptionsArePrecedenceChains | lolcapture/Capture.swift:59-72 | both captions equal the first present value of the chain parsed, test value (test mode only), git |
| Capture.WithGitInfo | lolcapture/Capture.swift:127-132 | a found commit sets the git hash and subject and nothing else; no commit changes nothing |
| Capture.SplitArg | lolcapture/Capture.swift:87-89 | the key is the text before the first "=" (the whole argument if there is none); the value is the text between the first and second "=", anything after a second "=" being dropped |
| Capture.ApplyOption | lolcapture/Capture.swift:91-121 | -h/--help exits with 0 to show usage and -l/--list with 0 to list devices, any other unknown key exits with 1, and exactly the known setting keys continue; --warmup changes only the delay, and only when its value parses as a number; --debug changes nothing; -t/--test turns test mode on; --msg/--sha/--device store the value (possibly None) |
| Capture.ProcessOpts | lolcapture/Capture.swift:85-123 | processing continues to the end iff every argument has a known non-exiting key; an exit code is always 0 or 1; a single argument is processed as one option step |
| Capture.ProcessOptsAppend | lolcapture/Capture.swift:86-122 | processing a concatenation is processing the first part and then the second from the resulting state, unless the first part exited |
| Capture.OptionsAfterExitIgnored | lolcapture/Capture.swift:91-121 | arguments after an exiting one are not processed |
| Capture.ExitIgnoresState | lolcapture/Capture.swift:91-121 | an argument without a known non-exiting key exits, and with the same code and reason whatever the state |
| Capture.ExitIsFirstUnknown | lolcapture/Capture.swift:86-122 | processing ends exactly as the first argument without a known non-exiting key does: help or list with 0, an unknown key with 1 |
| Capture.LastWhere | lolcapture/Capture.swift:86-122 | the index of the last argument satisfying a predicate, None iff none does |
| Capture.ApplyOptionFields | lolcapture/Capture.swift:98-115 | a non-exiting argument sets only the field its key names: --msg/--sha/--device their value, -t/--test test mode, a parseable --warmup the delay |
| Capture.ProcessedOptions | lolcapture/Capture.swift:85-123 | after processing without an exit, --msg, --sha and --device hold the value of their last occurrence (else the starting value), test mode is on iff it was or some -t/--test occurs, the delay is the last parseable --warmup (else the starting delay), and the git fields are untouched |
| Capture.InitialDefaultsKept | lolcapture/Capture.swift:33-76 | from the initial state, with no parseable --warmup the delay stays at the 0.75 of Config.swift:14, with no test flag test mode stays off, and no git subject is present |
| Capture.DeviceSelect | lolcapture/Capture.swift:164-184 | with a request: NotFound (exit 13) iff no enumerated device matches, even when a preferred device exists; a chosen device is the only matching one; Ambiguous (exit 1) lists all matches, at least two; without a request: the preferred device, or NotFound; an ambiguous result lists the matches in enumeration order, duplicates included, and a chosen device is the filter's only element |
| Capture.Selection.ExitCode | lolcapture/Capture.swift:164-184 | an ambiguous selection exits with 1 and a failed one with 13, and no other failed selection has either code |
| Capture.UniqueMatchIsChosen | lolcapture/Capture.swift:166-169 | a request matched by exactly one enumerated device selects that device |
| Config.Defaults | lolcapture/Config.swift:13-21 | delay 0.75, test mode and debug mode off, nothing parsed |
| Config.FinalMessage | lolcapture/Config.swift:38-40 | a parsed message wins; the test message exactly when in test mode with nothing parsed; outside test mode the parsed message, possibly None (no git fallback) |
| Config.FinalSha | lolcapture/Config.swift:45-47 | the same rule for the hash with the test hash |
| Config.CaptionsArePrecedenceChains | lolcapture/Config.swift:38-47 | both captions equal the first present value of parsed, then the test value in test mode |
| Config.DefaultsHaveNoCaptions | lolcapture/Config.swift:13-47 | with the default settings neither caption is present |
| LOLImage.RatioComparison | lolcapture/LOLImage.swift:58-59 | comparing the width and height ratios equals comparing the cross-products of target and frame sizes |
| LOLImage.CroppingSize | lolcapture/LOLImage.swift:68-75 | a relatively wide frame keeps its height and three quarters of its width; a relatively tall one keeps its width, with the height three quarters of it (exactly 4:3); equal ratios crop nothing |
| LOLImage.CroppingRect | lolcapture/LOLImage.swift:79-83 | the crop is centred, with equal opposite margins; for a wide frame it lies strictly inside horizontally; equal ratios give the whole frame |
| LOLImage.FixedTargetCropInside | lolcapture/LOLImage.swift:49-83 | for the 640x480 target the crop rectangle lies inside every frame, strictly inside vertically for a tall frame |
| LOLImage.NarrowTargetCropInside | lolcapture/LOLImage.swift:58-83 | for any target no wider than 4:3 the crop rectangle lies inside the frame |
| LOLImage.OtherTargetMayCropOutside | lolcapture/LOLImage.swift:71-83 | for a 400x100 target a 100x50 frame gets a crop that extends past the frame |
| LOLImage.WideCropAspect | lolcapture/LOLImage.swift:69-70 | the wide-frame crop is 4:3 iff the frame is 16:9 |
| LOLImage.AvailableWidth | lolcapture/LOLImage.swift:102 | the caption width plus both margins is the canvas width (620 for 640) |
| LOLImage.TopRect | lolcapture/LOLImage.swift:114 | the top caption spans from the margin to the width minus the margin, over the full height |
| LOLImage.NeededLines | lolcapture/LOLImage.swift:119 | the fewest lines whose total width covers the rendered caption width |
| LOLImage.BottomRect | lolcapture/LOLImage.swift:118-121 | the bottom caption spans the same margins and is as tall as its line height times its line count |
| LOLImage.ComposeLayout | lolcapture/LOLImage.swift:49-129 | the crop is exactly the aspect-fill crop for the fixed 640x480 target, and so lies inside the frame; the canvas is 640x480 whatever the frame size; a caption box exists iff its message does; the top box is (10, 0, 620, 480); the bottom box is the bottom rectangle for the measured caption, at y = 0 between the margins |
| FancyConfig.EnvironmentVariable | lolcapture/FancyConfig.swift:63-68 | the namespace, "_" and the stub when a stub is set, and None otherwise |
| FancyConfig.Description | lolcapture/FancyConfig.swift:75-83 | "<NOT SET>" when the payload is absent, otherwise the payload's text |
| FancyConfig.DescriptionNotSetExactly | lolcapture/FancyConfig.swift:75-83 | apart from payloads whose text is "<NOT SET>" itself, the description is "<NOT SET>" iff the payload is absent |
| FancyConfig.SourceDescription | lolcapture/FancyConfig.swift:97-104 | the four source labels, each at most 8 characters, so each fits the source column |
| FancyConfig.TypeMapped | lolcapture/FancyConfig.swift:119-134 | the result always has the default's variant; an absent or unparseable number becomes an absent double |
| FancyConfig.EnvironmentValue | lolcapture/FancyConfig.swift:137-145 | present iff the option has a variable and the environment sets it; then its text converted to the option's type |
| FancyConfig.GitconfigValue | lolcapture/FancyConfig.swift:151-157 | present iff git config has the key section + "." + key; then its text converted to the option's type |
| FancyConfig.GetValue | lolcapture/FancyConfig.swift:165-168 | the first present of manual, environment and git config, else the default |
| FancyConfig.GetSource | lolcapture/FancyConfig.swift:180-185 | Manual iff a manual value is set; Environment iff not and the environment value is present; GitConfig iff neither but git config is; Default otherwise |
| FancyConfig.SourceAgreesWithValue | lolcapture/FancyConfig.swift:165-185 | the reported source is the layer the value came from; Default means the value is the default |
| FancyConfig.SetValue | lolcapture/FancyConfig.swift:169-173 | a set stores the value manually and changes nothing else |
| FancyConfig.SetThenGet | lolcapture/FancyConfig.swift:165-185 | after a set the value read back is the one set and the source is Manual, whatever the environment and git config hold |
| FancyConfig.NoStubNeverEnvironment | lolcapture/FancyConfig.swift:137-145 | an option without a stub never takes its value from the environment |
| FancyConfig.UnparseableEnvironmentShadows | lolcapture/FancyConfig.swift:119-167 | an unparseable environment string for a double option still wins, as an absent double, over git config and the default |
| FancyConfig.ValueHasDefaultType | lolcapture/FancyConfig.swift:107-134 | when any manual value has the default's type, the current value does too |
| FancyConfig.BoolGet | lolcapture/FancyConfig.swift:207-217 | the boolean payload of the current value, None when it is not boolean |
| FancyConfig.DoubleGet | lolcapture/FancyConfig.swift:230-240 | the double payload of the current value, None when it is not a double |
| FancyConfig.StringGet | lolcapture/FancyConfig.swift:253-263 | the string payload of the current value, None when it is not a string |
| FancyConfig.TypedSetThenGet | lolcapture/FancyConfig.swift:207-263 | each typed getter reads back what its setter stored, and the setter keeps an option of its kind well typed |
| FancyConfig.DoubleOptionFromEnvironment | lolcapture/FancyConfig.swift:220-240 | a new double option takes a parseable environment value over git config and the default |
| FancyConfig.BoolAndStringOptionLayers | lolcapture/FancyConfig.swift:197-263 | new boolean and string options without an environment value read git config's text, converted to their type, when the key is present, and their default otherwise |
| ConfigCommand.Truncate | lolcapture/ConfigCommand.swift:5-11 | unchanged when it fits; otherwise the first n-1 characters and an ellipsis, exactly n long |
| ConfigCommand.TruncateIdempotent | lolcapture/ConfigCommand.swift:5-11 | truncating an already truncated string changes nothing |
| ConfigCommand.Ljust | lolcapture/ConfigCommand.swift:14-22 | exactly width characters; a shorter string followed only by spaces; a string of exactly that width unchanged; a longer one truncated |
| ConfigCommand.MaxValLen | lolcapture/ConfigCommand.swift:36-41 | the value column is 23 wide, so the four columns and three spacers fill 80 |
| ConfigCommand.TableRow | lolcapture/ConfigCommand.swift:43-48 | every row is 80 characters: the key cell at 0, the environment cell at 25, the value cell at 47 and the source cell at 72, each justified to its width, with two-space spacers between them |
| ConfigCommand.FixedRowsWidth | lolcapture/ConfigCommand.swift:43-55 | the header and separator rows are exactly 80 characters; the separator row is only dashes and spaces; the header starts with its untruncated first label |
| ConfigCommand.OptionRow | lolcapture/ConfigCommand.swift:57-63 | each option's row is 80 characters: its qualified key, its environment variable (blank without one), the description of its current value and its source label, each justified in its column, joined by the two-space spacer |
| ConfigCommand.SourceColumnShowsLabel | lolcapture/ConfigCommand.swift:61 | source labels are never truncated in their column |
| GitInfo.FirstExisting | lolcapture/GitInfo.swift:19-28 | the earliest path that exists, or None iff none exists |
| GitInfo.InstalledGitPath | lolcapture/GitInfo.swift:18-29 | /usr/local/bin/git if it exists, else /usr/bin/git if it exists, else None |
| GitInfo.RecordEntry | lolcapture/GitInfo.swift:39-43 | a record contributes its first line as key and its second as value iff it has at least two lines; later lines are ignored |
| GitInfo.RecordsToMapKeys | lolcapture/GitInfo.swift:33-44 | a key is in the table iff it is the first line of some record with at least two lines; nothing else is added |
| GitInfo.RecordsToMapLastWins | lolcapture/GitInfo.swift:38-44 | a key's value is the second line of the last record with that key, so later records overwrite earlier ones |
| GitInfo.ShortRecordAddsNothing | lolcapture/GitInfo.swift:40 | a record of fewer than two lines, such as the empty piece after the final NUL, leaves the table unchanged |
| GitInfo.ConfigInfoRoundTrip | lolcapture/GitInfo.swift:32-47 | parsing the `git config -z` output of well-framed entries gives back those entries, later ones winning |
| GitInfo.LastCommitInfo | lolcapture/GitInfo.swift:52-67 | None iff the exit code is nonzero; otherwise the hash and subject are the output's first two lines |
| GitInfo.LastCommitInfoRoundTrip | lolcapture/GitInfo.swift:53-66 | the output `git show --format=%h%n%s` prints for a commit parses back into its hash and subject |

## Left out

- `CamSnapper.capture`: the AVFoundation session, the dispatch-group wait and
  the warm-up sleep are concurrency, real time and a foreign API. The timeout
  is the warm-up delay plus 10 seconds (`CamSnapper.swift:102`). It is not a
  member here.
- `CamSnapper.preferredDevice` and the device enumeration are platform calls.
  They are parameters of `DevicesMatchingString` and `DeviceSelect`.
- Drawing, fonts, strokes and TIFF/JPEG encoding in `LOLImage.swift` are
  foreign rendering calls. A caption's rendered size is a parameter of
  `ComposeLayout`. CGFloat rounding is not modelled; coordinates
  are exact reals.
- The placeholder captions that `init(imageData:)` assigns
  (`LOLImage.swift:37-39`) are fixed test strings. The captions are inputs of
  `ComposeLayout` here, so those placeholders are not modelled.
- `LOLImage.CroppingSize`, `LOLImage.CroppingRect` and `LOLImage.ComposeLayout`
  require a frame of positive size. The Swift code divides by the frame's size and does not guard
  against an empty image.
- `ConfigCommand.Truncate` and `ConfigCommand.Ljust` require a width of at
  least 1 whenever the string must be cut. The Swift code traps there, because
  it advances the index before the start of the string.
- `GitInfo.LastCommitInfo` requires at least two lines of output after a zero
  exit code. The Swift code indexes the second line without a check.
- `ShellUtils.swift`, `completedGitTask`, `currentWorktreeRoot` and
  `currentWorktreeGitDir` spawn processes and touch the file system.
- `Config.cwd`, `Config.defaultFileName` and `Config.filePath`
  (`Config.swift:5-11`) are the working directory and a fixed output path
  built from it. Writing the image there is I/O, so `Config.ConfigState` has
  no file-path field.
- `destinationFilePath` is path standardisation against the working
  directory. `CaptureCommand.run`, `listDevices`, `printUsage`, opening the
  image in the workspace, writing the file, `Logger.swift` and `main.swift`
  are I/O.
- NSNumberFormatter parsing, `NSString.boolValue` and the formatting of a
  double are parameters. Unicode lowercasing is a parameter, with an ASCII
  version for the lemma about capital letters. The random UUID test hash is a
  parameter.
- Swift counts grapheme clusters. Here a string's length is its number of
  characters.
- `config.swift` is option declarations that depend on `programName`, which is
  not part of this model. The git config section and the environment namespace
  are parameters of `FancyConfig.Context`.
