# ld26 core in Dafny

A Dafny model of the deterministic core of ld26, an online space shooter: its small C engine "xpl", the game code on top of it, and the Ruby build scripts. It covers the components that work on integers, bytes and strings, and proves what each one promises:

- **Wire format** (`packet.dfy`): the game packet header and its per-type payload layout, with decode inverting encode for every known type.
- **Byte buffers** (`dynamic_buffer.dfy`, `buffer_object.dfy`): the growable byte buffer with its dirty range, and the buffer-object state machine (empty, create, clean, update) that decides what a commit uploads. The server copy is a sequence, so a commit is shown to synchronise it with the client data.
- **Texture atlas** (`texture_atlas.dfy`): the skyline allocator as a list of segments. Fitting, choosing the lowest and then narrowest segment, splicing, shrinking and merging are each proved against a column-height view of the skyline. The pixel blit of `set_region` is proved to copy each row and touch nothing else.
- **Hashing and randomness** (`md5.dfy`, `det_rng.dfy`): MD5 as RFC 1321 describes it (padding, length, word and byte order, the hex digest), and the xorshift generator, including that its step is invertible.
- **Text console** (`text_buffer.dfy`): the character grid with cursor, scrolling, the editable input line and the history ring.
- **Immediate-mode UI** (`imui.dfy`): textfield editing, button hot and active logic, key edges, the waiting-key queue, the scroll stack, colour fallback and default control ids.
- **Game tables** (`context_game.dfy`, `camera.dfy`, `game_util.dfy`, `menu.dfy`): player and projectile slots, particle slot choice, the three-line log, firing and weapon rules, bounds tests, camera clamping and the menu stack.
- **Caches and registries** (`frame_cache.dfy`, `text_cache.dfy`, `command_render.dfy`, `es.dfy`, `input.dfy`, `engine_info.dfy`):
  - the two-generation frame caches for text and geometry;
  - the entity/component registry with its three indexes and result sets;
  - character listeners;
  - timing-sample retention.
- **Parsing and helpers** (`model_loader.dfy`, `platform.dfy`, `file.dfy`, `math_util.dfy`, `color.dfy`, `memory.dfy`, `strings.dfy`, `arith.dfy`):
  - Wavefront OBJ face and vector parsing;
  - path and extension helpers;
  - next power of two, RGBA packing and memory compare.
- **Build scripts** (`resource_processor.rb` as `resource_processor.dfy`; `header_version_update.rb` as `header_version.dfy` and `version_defines.dfy`; `plist_version_update.rb` as `plist_version.dfy`): first-match dispatch of resources and argument parsing, and the `#define` and Info.plist version rewriters.

Code that works by changing state (buffers, tables, the atlas, the MD5 context, the console, the UI context, the registry) is modelled as a class. Each of its methods is proved to leave the state that a function of the old state describes. Those functions carry the lemmas: round trips, preserved invariants, and reference definitions. Pure code becomes functions and lemmas. C integer widths are explicit wherever wrap-around matters: `uint16_t` packet fields, 32-bit positions, 64-bit MD5 bit counts and xorshift state. Hash functions the C code takes from uthash, OS file-system queries and the build's external tools are parameters of the model.

Where the description of the system and the code differ, the model follows the code. For example, `resource_processor.rb` takes the output directory from its first argument, although its usage line lists it last. `header_version_update.rb` reads `LAST_BUILD_SUCCEEDED` by its first character.

## Model

| member | source | states |
|---|---|---|
| Color.Rgba | include-xpl/xpl_color.h:11 | RGBA packs the low byte of each argument into the word: channel 0 is red & 0xff, channel 1 green, channel 2 blue, channel 3 alpha |
| Color.RepackIdentity | include-xpl/xpl_color.h:11-14 | splitting a word into its four RGBA_F channels and packing them with RGBA gives the word back |
| Color.RgbaInjective | include-xpl/xpl_color.h:11 | two RGBA words are equal exactly when the low bytes of all four arguments are |
| Color.RgbaF | include-xpl/xpl_color.h:13-14 | RGBA_F gives channel k divided by 255 for r, g, b, a in that order, each in [0, 1] |
| MathUtil.NextPowerOfTwoAsWritten | include-xpl/xpl_math.h:103-116 | as written: 1 comes back unchanged, every other value (powers of two included) becomes 1 << (its bit length) |
| MathUtil.EarlyReturnOnlyForOne | include-xpl/xpl_math.h:107 | the early-return test `val & !(val & (val - 1))` holds for val == 1 and for no other word |
| MathUtil.EarlyReturnOnlyForOneWord | include-xpl/xpl_math.h:107 | the same test on every unsigned int value below 2^32 |
| MathUtil.NextPowerOfTwo | include-xpl/xpl_math.h:103-116 | corrected: the result is a power of two, at least val, no larger than any power of two at least val, and val itself when val is a power of two |
| MathUtil.FourBecomesEight | include-xpl/xpl_math.h:110-115 | as written, 4 (a power of two) is rounded up to 8 |
| MathUtil.BitLengthBounds | include-xpl/xpl_math.h:110-115 | the shift loop's count c satisfies 2^(c-1) <= val < 2^c, so 1 << count is the least power of two above val |
| MathUtil.PowerOfTwoTest | include-xpl/xpl_math.h:107 | a number is a power of two exactly when it is positive and equals 2^(bit length - 1) |
| MathUtil.Signum | include-xpl/xpl_math.h:118 | xpl_signum is -1, 0 or 1, has the sign of x, and times x gives the absolute value of x |
| File.FileExtension | src-xpl/xpl_file.c:14-18 | the extension follows some '.' of the name, holds no '.', and is shorter than the name |
| File.TrailingDotIsEmpty | src-xpl/xpl_file.c:14-18 | a name ending in '.' has the empty extension |
| File.ExtensionIsSuffix | src-xpl/xpl_file.c:14-18 | '.' followed by the extension is a suffix of the name (strrchr finds the last dot) |
| File.HasAppendedExtension | src-xpl/xpl_file.c:20-23 | stem + "." + ext has extension `other` exactly when other == ext (a case-sensitive strcmp) |
| Input.LetterIsNotACharacterAsWritten | src-xpl/xpl_input.c:30-32 | as written, 'a' is not a character and the key 38 above XPL_KEY_SPECIAL is; the corrected test says the reverse |
| Input.CharacterTestsDisagree | src-xpl/xpl_input.c:30-32 | for every key but XPL_KEY_SPECIAL, the test as written holds exactly when the corrected test fails |
| Input.CharacterListeners.constructor | src-xpl/xpl_input.c:28 | the listener table starts empty with character delivery off |
| Input.CharacterListeners.Add | src-xpl/xpl_input.c:34-57 | the id is the pointer hash of func then context; an already registered id adds nothing, a new one is appended; character delivery is on; ids stay distinct |
| Input.CharacterListeners.Remove | src-xpl/xpl_input.c:59-68 | a registered id is removed (and only its entry); character delivery is on exactly when listeners remain |
| Input.CharacterListeners.Dispatch | src-xpl/xpl_input.c:70-75 | listeners are tried in order; the result is the first that accepts the character, none before it accepts, or past the end when none does |
| Memory.FirstDifference | src-xpl/xpl_memory.c:134-136 | the offset of the first differing byte: the bytes differ there and agree everywhere before |
| Memory.LastDifference | src-xpl/xpl_memory.c:146-148 | the offset of the last differing byte: the bytes differ there and agree everywhere after |
| Memory.FirstNotAfterLast | src-xpl/xpl_memory.c:129-156 | the first difference never lies after the last |
| Memory.MemoryCompareAsWritten | src-xpl/xpl_memory.c:129-156 | as written: equal ranges give (0, ~0, 0); otherwise is_different is 1, the first offset is one past the first difference, and the last offset is one below the last difference (wrapping to ~0 below 0) except when a single difference is not at the end |
| Memory.MemoryCompare | src-xpl/xpl_memory.c:129-156 | corrected: equal ranges give (0, ~0, 0); different ranges give 1 and the exact offsets of the first and last differing bytes |
| Memory.OneByteDifference | src-xpl/xpl_memory.c:135-152 | comparing [1] with [0] reports first offset 1 and last offset ~0 instead of 0 and 0 |
| Menu.MenuStack.Contents | src/context/context_menu.c:29-31 | the menus on the stack, bottom first: menu_index + 1 of them |
| Menu.MenuStack.constructor | src/context/context_menu.c:30-31 | the stack starts empty (menu_index == -1) |
| Menu.MenuStack.Push | src/context/context_menu.c:466-468 | menu_push puts the menu on top and raises the index by one; the source does not check MENU_STACK_MAX, so the caller must stay below it |
| Menu.MenuStack.Pop | src/context/context_menu.c:470-474 | menu_pop refuses when at most one menu is left, otherwise drops the top one |
| Menu.MenuStack.Current | src/context/context_menu.c:320-325 | the engine step pushes the main menu on an empty stack and otherwise reads the top without changing the stack |
| Menu.MenuStack.PopAll | src/context/context_menu.c:457 | popping until refused leaves only the bottom menu (or an empty stack) |
| Platform.ResourceExtension | src-xpl/xpl_platform.c:402-406 | the extension holds no '.'; a non-empty one is the text after a '.' that is not the name's first character |
| Platform.ResourceExtensionOfStem | src-xpl/xpl_platform.c:402-406 | a non-empty stem, '.', and a dot-free extension give that extension back |
| Platform.NoExtensionWithoutInnerDot | src-xpl/xpl_platform.c:404 | a name without a dot, or whose only dots lead it, has the empty extension |
| Platform.CString | src-xpl/xpl_platform.c:397 | the string held in a buffer is its characters before the first NUL |
| Platform.ReplacedString | src-xpl/xpl_platform.c:396-400 | replacing by a non-NUL character keeps the string's length and swaps exactly the occurrences of `find` |
| Platform.StrReplace | src-xpl/xpl_platform.c:396-400 | str_replace walks up to the first NUL and swaps every `find` there for `replace`, leaving the rest of the buffer as it was |
| Platform.Strncpy | src-xpl/xpl_platform.c:411 | strncpy leaves the first n characters of the source, NUL-padded to n, and nothing beyond n changes |
| Platform.GenericPathString | src-xpl/xpl_platform.c:408-416 | the string in the generic-path buffer is the input truncated to length-1 characters with every OS separator turned into '/' |
| Platform.CreateGenericPath | src-xpl/xpl_platform.c:408-416 | xpl_create_generic_path fills the first `length` cells with the generic path buffer and changes nothing beyond them |
| Platform.GenericPathSteps | src-xpl/xpl_platform.c:411-415 | strncpy, the optional str_replace and the final NUL together build the generic path buffer |
| Platform.FormatResourcePath | src-xpl/xpl_platform.c:418-438 | a formatted resource path is always shorter than the buffer length (each snprintf truncates) |
| Platform.Candidates | src-xpl/xpl_platform.c:514-525 | xpl_resolve_resource tries exactly four candidate paths: application, library, development and data |
| Platform.ResolveResource | src-xpl/xpl_platform.c:514-529 | the result is found exactly when some candidate exists; a found path is the first existing candidate; otherwise the data path stays in the buffer |
| EngineInfo.Retained | src-xpl/xpl_engine_info.c:58-71 | after appending, the oldest samples are deleted until at most retain_execution_sample_count remain: the result is the newest min(count, retain) samples |
| EngineInfo.LastTimes | src-xpl/xpl_engine_info.c:101-120 | xpl_last_times gives the newest sample (the list's tail), or zeros when there are no samples |
| EngineInfo.ExecutionInfo.constructor | src-xpl/xpl_engine_info.c:122-132 | a new execution info has no samples, keeps 5 of them, and has zero totals and frame count |
| EngineInfo.ExecutionInfo.LogTimes | src-xpl/xpl_engine_info.c:37-73 | totals grow by the sample only once a frame has been counted; the frame count goes up by one (wrapping as a size_t); the sample list is the retained tail of the old list plus the new sample |
| EngineInfo.ExecutionInfo.LogTimesKeepsValid | src-xpl/xpl_engine_info.c:64-71 | logging never leaves more samples than the retention count |
| EngineInfo.AverageTimesAsWritten | src-xpl/xpl_engine_info.c:75-99 | as written: with no samples three channels are zeroed and the interpolation time is left as it was; otherwise the stale interpolation value is added into its sum before dividing |
| EngineInfo.AverageTimes | src-xpl/xpl_engine_info.c:75-99 | corrected: every channel is the mean of that channel over the samples (zeros when there are none) |
| EngineInfo.MeanOfRepeated | src-xpl/xpl_engine_info.c:88-98 | averaging n copies of one sample gives that sample back |
| EngineInfo.LastAfterLog | src-xpl/xpl_engine_info.c:58-120 | after logging a sample with a positive retention count, xpl_last_times returns that sample |
| EngineInfo.StaleInterpolation | src-xpl/xpl_engine_info.c:80-97 | one all-zero sample over a stale interpolation time of 1 averages to 1 as written, where the mean is 0 |
| GameUtil.InBoundsIsBox | include/game/util.h:14-25 | position_in_bounds holds exactly when the position widened by fudge on every side meets the box [min, max]; no int64_t sum wraps |
| GameUtil.ZeroFudgeIsInclusiveBox | include/game/util.h:14-25 | with fudge 0 it is the inclusive box test |
| GameUtil.MoreFudgeAcceptsMore | include/game/util.h:14-25 | a larger fudge accepts every position a smaller one does |
| GameUtil.Wrapped | include/game/util.h:39-42 | position_mod leaves both coordinates below PLAYFIELD_MAX |
| GameUtil.WrappedKeepsInside | include/game/util.h:39-42 | a position already inside the playfield is left alone |
| GameUtil.WrappedIdempotent | include/game/util.h:39-42 | reducing twice is reducing once |
| GameUtil.WrappedByPlayfields | include/game/util.h:39-42 | each coordinate moves by a whole number of playfields |
| GameUtilObject.PositionRef.Mod | include/game/util.h:39-42 | position_mod reduces the pointed-to position in place |
| Camera.ClampAxisInside | src/game/camera.c:24-34 | one clamped axis stays at least half a view from both ends of the uint32 range, and a value already that far in is kept |
| Camera.ClampedFrameInside | src/game/camera.c:15-45 | corrected: the stored view runs exactly from centre - half to centre + half with no uint32 wrap-around, and the centre lies inside it |
| Camera.ClampedKeepsNudgedCentre | src/game/camera.c:16-19 | the nudge is added before clamping, and a nudged centre at least half a view from the edges is kept |
| Camera.ClampedIdempotent | src/game/camera.c:15-45 | clamping the stored centre again without a nudge changes nothing |
| Camera.ClampedAsWrittenAgrees | src/game/camera.c:27-28 | away from the right edge, the code as written and the corrected clamp agree |
| Camera.RightEdgeMovesY | src/game/camera.c:27-28 | at x = UINT32_MAX with a 100 x 100 draw area, the code as written moves y down by 50 and stores max.px = 49 below min.px; the corrected clamp moves x instead |
| CameraObject.Camera.constructor | src/game/camera.c:13 | the global camera has the given draw area and a zero centre, min and max |
| CameraObject.Camera.StoreFrame | src/game/camera.c:36-43 | the closing stores set centre, min and max from the clamped x, y and the half sizes, truncated to uint32 |
| CameraObject.Camera.CalculateCenter | src/game/camera.c:15-45 | corrected camera_calculate_center: the stored frame is the one with each axis clamped on its own |
| CameraObject.Camera.CalculateCenterAsWritten | src/game/camera.c:15-45 | camera_calculate_center as written, where the x overshoot past UINT32_MAX is taken off y |
| VersionDefines.Run | build/scripts/header_version_update.rb:21 | the run of white space (or of non-space) at the start of a line is maximal: every character in it has the kind, the next one does not |
| VersionDefines.DefineAfter | build/scripts/header_version_update.rb:21 | the captures of `\s+(\S+)\s+(\S+)` are tokens: non-empty and free of white space |
| VersionDefines.MatchDefine | build/scripts/header_version_update.rb:21 | a line that matches `#define\s+(\S+)\s+(\S+)` gives a key and a value that are both tokens |
| VersionDefines.DefineAfterWritten | build/scripts/header_version_update.rb:21-23 | the text after "#define" in a written define line gives back exactly the key and value it was written with |
| VersionDefines.DefineLineMatches | build/scripts/header_version_update.rb:21-23 | the line "#define %s %s\n" written for a token key and value matches the define pattern with that key and value |
| VersionDefines.FirstIndex | build/scripts/header_version_update.rb:36 | Array#index: the first position holding the key, or -1 when no position does |
| VersionDefines.LastValue | build/scripts/header_version_update.rb:33-39 | the value get_defines keeps for a key (the one on its last define line) is a token |
| VersionDefines.LaterDefineWins | build/scripts/header_version_update.rb:33-39 | a define line for the key added at the end decides its value |
| VersionDefines.UndefinedHasNoValue | build/scripts/header_version_update.rb:33-39 | a key no line defines stays nil |
| VersionDefines.GetDefines | build/scripts/header_version_update.rb:31-41 | one result per key: the value of the key's last define line, or nil; a key repeated in the list fills only its first slot |
| VersionDefines.LastValueStep | build/scripts/header_version_update.rb:33-38 | one more line for get_defines: a define line for the key replaces its value, any other line leaves it |
| VersionDefines.IncrementVersion | build/scripts/header_version_update.rb:43-47 | increment_version raises (None) exactly when the value holds no digit; otherwise the first number in the result is the first number of the input plus one |
| VersionDefines.IncrementedToken | build/scripts/header_version_update.rb:43-47 | incrementing a token gives a token, so the rewritten define line still matches the pattern |
| VersionDefines.IncrementKeepsSuffix | build/scripts/header_version_update.rb:44-46 | for a decimal number followed by a digit-free suffix, the number goes up by one and the suffix is kept |
| VersionDefines.ReplacedLines | build/scripts/header_version_update.rb:19-28 | replace_define keeps the number of lines and rewrites each line on its own; it raises exactly when some line's rewrite raises |
| VersionDefines.ReplacedLinesAt | build/scripts/header_version_update.rb:20-26 | only the define lines of the key change; each becomes "#define key value" with the rewritten value |
| VersionDefines.ConstantNeverRaises | build/scripts/header_version_update.rb:68 | replace_define with a constant block never raises |
| VersionDefines.LastValueAfterReplace | build/scripts/header_version_update.rb:19-41 | after replace_define for a key, get_defines reads the rewritten value for that key (nil stays nil) and the old value for every other name |
| VersionDefines.TextFile.constructor | build/scripts/header_version_update.rb:3-11 | a text file holds the given lines |
| VersionDefines.TextFile.Read | build/scripts/header_version_update.rb:3-11 | read_file returns a fresh array of the file's lines |
| VersionDefines.TextFile.Write | build/scripts/header_version_update.rb:13-17 | write_file makes the file the lines of the array |
| VersionDefines.ReplaceDefine | build/scripts/header_version_update.rb:19-28 | map! in place: with no raise the array becomes ReplacedLines of the old lines; a raise at line k leaves lines before k rewritten and the rest as they were |
| VersionDefines.RewriteAt | build/scripts/header_version_update.rb:20-27 | one step of map!: line i is rewritten and the prefix grows by it, or the rewrite raises and nothing changes |
| VersionDefines.ReplacedPrefix | build/scripts/header_version_update.rb:20-27 | rewriting one more line extends the rewritten prefix by that line |
| VersionDefines.RaisingLine | build/scripts/header_version_update.rb:20-27 | one line whose rewrite raises makes the whole replace_define raise |
| HeaderVersion.ProcessVersionHeader | build/scripts/header_version_update.rb:49-71 | the outcome is HeaderUpdate of the old header lines, and the header file holds the written lines exactly when the script reaches write_file |
| HeaderVersion.OnlyAfterSuccess | build/scripts/header_version_update.rb:57-64 | the header is written only when LAST_BUILD_SUCCEEDED starts with 't' (any case); a flag that does not keeps the header; a missing flag raises |
| HeaderVersion.NamesAreTokens | build/scripts/header_version_update.rb:57-69 | the define names and the constant "false" the script writes are tokens |
| HeaderVersion.ClearedValue | build/scripts/header_version_update.rb:67-68 | after the build bump and the flag reset, the flag reads "false" when it was defined, VERSION_BUILD reads one more, every other name is unchanged |
| HeaderVersion.WrittenValue | build/scripts/header_version_update.rb:67-70 | in the written header the flag is "false", the build number is one up, the revision is one up for a release build only, and every other define reads as before |
| HeaderVersion.WrittenVersions | build/scripts/header_version_update.rb:57-70 | get_defines on the written header gives "false", the bumped build, the revision bumped only for a release build, and the old major and minor numbers |
| PlistVersion.SegmentEnd | build/scripts/plist_version_update.rb:36-37 | the part of a line `.` can match ends at the first line feed, or at the end of the line |
| PlistVersion.Untagged | build/scripts/plist_version_update.rb:36 | `[^<]+` takes the longest run without '<' |
| PlistVersion.LastSlot | build/scripts/plist_version_update.rb:36-37 | the greedy `(.*<string>)` settles on a position where "<string>", a non-empty run without '<' and "</string>" follow one another |
| PlistVersion.LastSlotFrom | build/scripts/plist_version_update.rb:36-37 | the greedy match takes the last such position: one with no "<s" after it wins |
| PlistVersion.CanonicalSlot | build/scripts/plist_version_update.rb:36-38 | on a line `indent<string>v</string>\n` with a plain value the captures are `indent<string>` and `</string>` |
| PlistVersion.WrittenCanon | build/scripts/plist_version_update.rb:36-40 | rewriting such a line with a new value gives `indent<string>new</string>\n` |
| PlistVersion.Scanned | build/scripts/plist_version_update.rb:32-51 | map! keeps the number of lines, and the next_match flag after the lines says whether the last line is a key line |
| PlistVersion.ScanRaises | build/scripts/plist_version_update.rb:35-38 | replace_plist_value raises exactly when some line after a key line does not match the value pattern |
| PlistVersion.ScanKeeps | build/scripts/plist_version_update.rb:43-48 | every line that does not follow a key line is kept as it was |
| PlistVersion.CorrectedLines | build/scripts/plist_version_update.rb:32-51 | corrected: every line after a key line becomes its open capture, the new value and its close capture, and the value given stays the value |
| PlistVersion.ThreadsAgree | build/scripts/plist_version_update.rb:40 | with at most one line after a key line, the code as written and the corrected code write the same lines |
| PlistVersion.TwoPairs | build/scripts/plist_version_update.rb:34-50 | two key/value pairs: as written the second value line is rewritten with the first rewritten line, corrected with the value |
| PlistVersion.DuplicateKeyAsWritten | build/scripts/plist_version_update.rb:40 | as written, an Info.plist naming the key twice gets the whole first rewritten line nested into the second value, not the value |
| PlistVersion.DuplicateKeyCorrected | build/scripts/plist_version_update.rb:32-51 | corrected, the same Info.plist gets the value in both value lines |
| PlistVersion.ReplacePlistValue | build/scripts/plist_version_update.rb:32-51 | map! in place with the corrected value: with no raise the array becomes the corrected scan of the old lines; a raise at line k leaves lines before k mapped and the rest as they were |
| PlistVersion.ScanAt | build/scripts/plist_version_update.rb:35-49 | one step of map!: a value line is rewritten (or raises and nothing changes), a key line sets next_match, any other line is kept |
| PlistVersion.DottedFields | build/scripts/plist_version_update.rb:87 | splitting a join with '.' of dot-free parts at its dots gives the parts back |
| PlistVersion.ShortVersionFields | build/scripts/plist_version_update.rb:83-87 | the short version string splits back into major, minor, revision and build (nil as "") |
| PlistVersion.FlaggedValue | build/scripts/plist_version_update.rb:94 | after the flag rewrite LAST_BUILD_SUCCEEDED reads "true" when it was defined, and every other define reads as before |
| PlistVersion.UpdatedPlist | build/scripts/plist_version_update.rb:86-92 | with the corrected replace_plist_value, the written Info.plist has the build number after each CFBundleVersion key, then the short version after each CFBundleShortVersionString key, and every other line kept; this equals the script as written whenever each key occurs once |
| PlistVersion.VersionKeysDistinct | build/scripts/plist_version_update.rb:83-85 | the four version keys are distinct, so get_defines fills each slot with its own key's value |
| PlistVersion.ProcessPlistVersion | build/scripts/plist_version_update.rb:71-96 | built on the corrected replace_plist_value, the outcome is PlistUpdate of the old files; a raise leaves both files as they were; otherwise _version.h gets the flagged lines and Info.plist the updated ones |
| ResourceProcessor.Basename | build/scripts/resource_processor.rb:50 | File.basename is "/" or holds no '/', and for a path not ending in '/' it is the path's last component |
| ResourceProcessor.Extname | build/scripts/resource_processor.rb:50 | File.extname is empty or a '.' followed by at least one character, and is a suffix of the basename |
| ResourceProcessor.Chomp | build/scripts/resource_processor.rb:50 | String#chomp(suffix) leaves a prefix of the string |
| ResourceProcessor.Join | build/scripts/resource_processor.rb:50 | File.join puts exactly one '/' between the directory and a relative name |
| ResourceProcessor.TargetFilenameParts | build/scripts/resource_processor.rb:49-51 | the target is the basename minus its extension, plus the new extension, in the output directory |
| ResourceProcessor.FirstCapable | build/scripts/resource_processor.rb:23-28 | the position of the first transformer whose can_process? accepts the input, with no earlier one accepting it; -1 when none does |
| ResourceProcessor.ProcessFile | build/scripts/resource_processor.rb:22-29 | the loop with its break yields the first accepting transformer's action, and nothing when none accepts |
| ResourceProcessor.WavBeforeCopy | build/scripts/resource_processor.rb:45-97 | with WAV2AAC, Copy and Mkdir in that order, a regular file is encoded to .aac exactly when its extension is ".wav" in any case, copied otherwise, and a directory is left to Mkdir |
| ResourceProcessor.DispatchedAppend | build/scripts/resource_processor.rb:16-19 | dispatching a list of files is dispatching its parts in turn |
| ResourceProcessor.DispatchedOnePerAccepted | build/scripts/resource_processor.rb:16-36 | every file yields at most one action, and one exactly when some transformer accepts it |
| ResourceProcessor.Process | build/scripts/resource_processor.rb:13-20 | Processor#process creates the target unless it is an existing directory, then dispatches every file in order |
| ResourceProcessor.ProcessInto | build/scripts/resource_processor.rb:31-37 | process_r appends the action of one file to those already planned |
| ResourceProcessor.SplitJoinList | build/scripts/resource_processor.rb:115 | `split /,\ */` on names joined with ", " gives the names back, when none is empty, holds a comma or starts with a space |
| ResourceProcessor.ResolveAll | build/scripts/resource_processor.rb:116-118 | const_get on every name: the transformers in order when every name resolves, otherwise some name does not |
| ResourceProcessor.KnownList | build/scripts/resource_processor.rb:114-118 | a list argument whose names all resolve appends their transformers |
| ResourceProcessor.UnknownList | build/scripts/resource_processor.rb:116-126 | a list argument with an unknown name ends the parse through the rescue |
| ResourceProcessor.ListThenFileAborts | build/scripts/resource_processor.rb:113-126 | as written, an input after a transformer list is looked up as a transformer list too, and the run aborts |
| ResourceProcessor.ExampleList | build/scripts/resource_processor.rb:115-118 | "WAV2AAC, Copy" names the WAV2AAC and Copy transformers |
| ResourceProcessor.FileNameIsNoList | build/scripts/resource_processor.rb:115-117 | a file name without a comma that names no transformer does not resolve as a list |
| ResourceProcessor.InputAfterListAborts | build/scripts/resource_processor.rb:105-134 | `out -t "WAV2AAC, Copy" music/theme.wav` aborts as written; the corrected parser runs the two transformers on the file |
| ResourceProcessor.PlainArgumentsAreInputs | build/scripts/resource_processor.rb:119-121 | without "-t", every argument after the output is an input, in order |
| ResourceProcessor.ListArgumentThenInputs | build/scripts/resource_processor.rb:105-134 | corrected: "-t", a list whose names resolve, then plain arguments yields those transformers and those inputs, with the output taken from the first argument |
| ResourceProcessor.ListThenInputs | build/scripts/resource_processor.rb:105-134 | the same for a list written out with ", " from transformer names |
| ResourceProcessor.NotFlag | build/scripts/resource_processor.rb:113 | a list of transformer names is never the flag "-t" |
| ResourceProcessor.ParseArguments | build/scripts/resource_processor.rb:105-137 | the corrected argument loop: the usage for fewer than two arguments, otherwise the parse of Arguments |
| DetRng.PrevNext | src/random/det_rng.c:36-43 | the three shift-and-xor steps of rng_ui64 are undone by Prev, so a step loses no information |
| DetRng.NextInjective | src/random/det_rng.c:36-43 | two states step to the same state exactly when they are equal |
| DetRng.ZeroIsStuck | src/random/det_rng.c:36-43 | a step yields zero exactly from the zero state: a zero seed repeats for ever and a nonzero state never reaches zero |
| DetRng.SeedWordsByParity | src/random/det_rng.c:21-27 | the seed loop leaves in word 0 the hash chain over the ints at even positions from XPL_HASH_INIT, and in word 1 the chain over the odd positions from 2 * XPL_HASH_INIT + 7 |
| DetRng.Double | src/random/det_rng.c:45-49 | rng_double lies in [0, 1] and equals 1 exactly when the output is UINT64_MAX |
| DetRng.RangeSymmetric | src/random/det_rng.c:56-59 | rng_range does not depend on the order of its two bounds |
| DetRng.RangeBounds | src/random/det_rng.c:56-59 | a draw in [0, 1] is scaled to a value between the smaller and the larger bound, the smaller for 0 and the larger for 1 |
| DetRng.Chosen | src/random/det_rng.c:90-95 | the choice loop returns an index not below where it starts and below bin_count |
| DetRng.ChosenHoldsSelection | src/random/det_rng.c:90-95 | with weights that are not negative, the chosen bin's running-total slice holds the selection; only the last bin may hold a selection beyond the total |
| DetRng.ChoiceIsWeighted | src/random/det_rng.c:83-96 | a selection of at least 0 picks the bin i whose slice [sum of bins before i, sum through i) contains it |
| DetRng.Total | src/random/det_rng.c:85-88 | the summing loop leaves the sum of all bins |
| DetRng.ChooseBin | src/random/det_rng.c:90-95 | the choosing loop, with its early return, returns the weighted choice Chosen and an index below bin_count |
| DetRng.IndexInSet | src/random/det_rng.c:72 | the corrected index, the output scaled by set_len / 2^64, always falls inside the set |
| DetRng.IndexAsWrittenInSet | src/random/det_rng.c:72 | as written, (size_t)(rng_double * set_len) is inside the set exactly when the output is not UINT64_MAX |
| DetRng.Bytes | src/random/det_rng.c:70-76 | the corrected rng_bytes_from_set yields exactly `length` bytes |
| DetRng.BytesFromSet | src/random/det_rng.c:70-76 | every byte drawn by the corrected rng_bytes_from_set is an element of the set |
| DetRng.DrawPastSet | src/random/det_rng.c:72 | from state 0x8080c0c09f60b0b0 the next output is UINT64_MAX, the as-written draw reads past the set, and the corrected draw stays in it |
| DetRng.NoNulInStringChars | src/random/det_rng.c:79 | rng_string's alphabet holds 62 letters and digits and no NUL |
| DetRng.String | src/random/det_rng.c:78-81 | the corrected rng_string yields `chars` characters, none of them NUL |
| DetRng.StringCanEndEarly | src/random/det_rng.c:80 | because sizeof(select) counts the terminating NUL, the as-written string from state 0xe414a5de6cefcd7c, drawn with the corrected index, is a single NUL, while the corrected one is not |
| DetRngObject.RngSeq.InitInts | src/random/det_rng.c:16-34 | rng_seq_init_ints leaves the state at three steps past the combined seed words |
| DetRngObject.RngSeq.Ui64 | src/random/det_rng.c:36-43 | rng_ui64 advances the state one step and returns the new state |
| DetRngObject.RngSeq.NextDouble | src/random/det_rng.c:45-49 | rng_double advances one step and returns the output over UINT64_MAX |
| DetRngObject.RngSeq.NextRange | src/random/det_rng.c:56-59 | rng_range advances one step and returns that draw scaled between the bounds |
| DetRngObject.RngSeq.SelectFromBins | src/random/det_rng.c:83-96 | rng_select_from_bins advances one step and returns the weighted choice, for a selection drawn in [0, total], and an index below bin_count |
| DetRngObject.RngSeq.BytesFromSet | src/random/det_rng.c:70-76 | the corrected rng_bytes_from_set advances `length` steps, fills fill[0..length) with the corrected draws and NUL-terminates fill[length], leaving the rest of fill unchanged |
| DynamicBuffer.Zeros | src-xpl/xpl_dynamic_buffer.c:42 | the memset of new bytes: n bytes, all zero |
| DynamicBuffer.Realloc | src-xpl/xpl_dynamic_buffer.c:38 | realloc yields an allocation of the requested size that keeps the common prefix of the old one |
| DynamicBuffer.MarkClean | src-xpl/xpl_dynamic_buffer.c:144-147 | mark_clean leaves the buffer clean with the range starting at the length, and changes nothing else |
| DynamicBuffer.Clear | src-xpl/xpl_dynamic_buffer.c:135-138 | clear leaves no data and a clean buffer, with allocation and capacity untouched |
| DynamicBuffer.Append | src-xpl/xpl_dynamic_buffer.c:51-67 | append keeps the length inside the allocation and, for non-empty data, adds its length to the length |
| DynamicBuffer.Spliced | src-xpl/xpl_dynamic_buffer.c:88-97 | the three-stage copy keeps the size of the allocation |
| DynamicBuffer.InsertAsWritten | src-xpl/xpl_dynamic_buffer.c:69-103 | insert as written keeps capacity and length within the allocation it grew |
| DynamicBuffer.Insert | src-xpl/xpl_dynamic_buffer.c:69-103 | the corrected insert keeps capacity and length within the allocation |
| DynamicBuffer.Delete | src-xpl/xpl_dynamic_buffer.c:105-121 | the corrected delete keeps capacity and allocation and leaves the length inside it |
| DynamicBuffer.Update | src-xpl/xpl_dynamic_buffer.c:123-133 | update keeps the size of the allocation |
| DynamicBuffer.AllocSpec | src-xpl/xpl_dynamic_buffer.c:32-49 | alloc grows capacity by data_len, keeps the old allocation as a prefix, zero-fills the new bytes and, with as_data, adds them to the length |
| DynamicBuffer.AllocAsDataSpec | src-xpl/xpl_dynamic_buffer.c:32-49 | alloc as data extends the data by the bytes that follow it, which are all zero exactly when the buffer was full |
| DynamicBuffer.AppendSpec | src-xpl/xpl_dynamic_buffer.c:51-67 | append leaves the old data followed by the appended bytes, and never shrinks the capacity |
| DynamicBuffer.AppendDirtiesAppended | src-xpl/xpl_dynamic_buffer.c:64-66 | after a non-empty append the dirty range covers the appended bytes and the buffer is not clean |
| DynamicBuffer.UpdateSpec | src-xpl/xpl_dynamic_buffer.c:123-133 | update keeps the length, replaces exactly the covered bytes and widens the dirty range over them |
| DynamicBuffer.InsertSpec | src-xpl/xpl_dynamic_buffer.c:69-103 | the corrected insert leaves the prefix, the data, then the old rest, with the length grown by the data |
| DynamicBuffer.SplicedData | src-xpl/xpl_dynamic_buffer.c:88-97 | after the three-stage copy the first length + data_len bytes are prefix, inserted data and moved tail |
| DynamicBuffer.InsertAtEndIsAppend | src-xpl/xpl_dynamic_buffer.c:76-80 | inserting at the end is appending |
| DynamicBuffer.DeleteSpec | src-xpl/xpl_dynamic_buffer.c:105-121 | the corrected delete removes exactly the bytes of the range and shortens the length by data_len |
| DynamicBuffer.DeleteAsWrittenData | src-xpl/xpl_dynamic_buffer.c:112-115 | where the as-written memmove stays inside the allocation, the data it leaves is the intended one |
| DynamicBuffer.DeleteOverrun | src-xpl/xpl_dynamic_buffer.c:113-115 | deleting one byte at offset 2 of a full 4-byte buffer makes the as-written memmove read past the allocation, while the corrected delete leaves [1, 2, 4] |
| DynamicBuffer.InsertThenAppendLosesData | src-xpl/xpl_dynamic_buffer.c:84-86 | because the grown insert does not record the capacity, append [1, 2], insert 9 at 0, append 3 leaves [9, 1, 0, 3] |
| DynamicBuffer.InsertThenAppendKeepsData | src-xpl/xpl_dynamic_buffer.c:69-103 | with the capacity recorded, the same calls leave [9, 1, 2, 3] |
| DynamicBuffer.ClearSpec | src-xpl/xpl_dynamic_buffer.c:135-138 | after clear there is no data and the buffer is clean |
| DynamicBuffer.ZeroLengthChangesNothing | src-xpl/xpl_dynamic_buffer.c:35 | alloc, append, insert, update and delete of zero bytes return without changing anything |
| DynamicBufferObject.Buffer.constructor | src-xpl/xpl_dynamic_buffer.c:16-19 | a new buffer is all zero: empty, valid and clean |
| DynamicBufferObject.Buffer.Alloc | src-xpl/xpl_dynamic_buffer.c:32-49 | the fields become those of Alloc on the old fields, and the buffer stays valid |
| DynamicBufferObject.Buffer.Append | src-xpl/xpl_dynamic_buffer.c:51-67 | the fields become those of Append on the old fields, and the buffer stays valid |
| DynamicBufferObject.Buffer.Insert | src-xpl/xpl_dynamic_buffer.c:69-103 | the fields become those of the corrected Insert on the old fields, and the buffer stays valid |
| DynamicBufferObject.Buffer.Delete | src-xpl/xpl_dynamic_buffer.c:105-121 | the fields become those of the corrected Delete on the old fields, and the buffer stays valid |
| DynamicBufferObject.Buffer.Update | src-xpl/xpl_dynamic_buffer.c:123-133 | the fields become those of Update on the old fields, and the buffer stays valid |
| DynamicBufferObject.Buffer.Clear | src-xpl/xpl_dynamic_buffer.c:135-138 | the fields become those of Clear on the old fields |
| DynamicBufferObject.Buffer.MarkClean | src-xpl/xpl_dynamic_buffer.c:144-147 | the fields become those of MarkClean on the old fields |
| DynamicBufferObject.Buffer.IsClean | src-xpl/xpl_dynamic_buffer.c:140-142 | is_clean holds exactly when the dirty range's maximum is zero |
| BufferObjectState.MarkDirty | src-xpl/xpl_bo.c:95-103 | buffer_mark_dirty always leaves a dirty state, and asks for a partial update exactly when the buffer was clean or already partially dirty |
| BufferObjectState.Commit | src-xpl/xpl_bo.c:52-93 | the corrected commit leaves the object clean, its client data clean and unchanged |
| BufferObjectState.CommitAsWritten | src-xpl/xpl_bo.c:52-93 | commit as written also leaves object and client data clean |
| BufferObjectState.Append | src-xpl/xpl_bo.c:110-115 | xpl_bo_append asks for a full upload and leaves the old data followed by the new |
| BufferObjectState.Clear | src-xpl/xpl_bo.c:123-126 | xpl_bo_clear asks for a full upload and leaves no data |
| BufferObjectState.Delete | src-xpl/xpl_bo.c:128-132 | built on the corrected DynamicBuffer.Delete, xpl_bo_delete asks for a full upload and removes exactly the deleted range |
| BufferObjectState.Update | src-xpl/xpl_bo.c:134-137 | xpl_bo_update marks the object dirty and overwrites exactly the covered bytes |
| BufferObjectState.InsertAsWritten | src-xpl/xpl_bo.c:117-121 | xpl_bo_insert as written only marks dirty; its client data, inserted with the corrected DynamicBuffer.Insert, stays valid |
| BufferObjectState.AllocAsWritten | src-xpl/xpl_bo.c:105-108 | xpl_bo_alloc as written only marks dirty; its client data stays valid |
| BufferObjectState.Insert | src-xpl/xpl_bo.c:117-121 | the corrected insert asks for a full upload and leaves prefix, inserted data, then the rest |
| BufferObjectState.Alloc | src-xpl/xpl_bo.c:105-108 | the corrected alloc asks for a full upload and grows the data by data_len bytes, zeros when the buffer was full |
| BufferObjectState.Clone | src-xpl/xpl_bo.c:29-35 | xpl_bo_clone yields a clean object holding the source's client data |
| BufferObjectState.NewIsConsistent | src-xpl/xpl_bo.c:17-27 | a new object is empty and meets the promise its dirty state makes about the server copy |
| BufferObjectState.CommitSynchronises | src-xpl/xpl_bo.c:52-93 | from any consistent state, the corrected commit leaves the server holding exactly the client data, and the object consistent |
| BufferObjectState.UpdateKeepsConsistent | src-xpl/xpl_bo.c:134-137 | update keeps the object consistent: every byte it changes lies inside the dirty range |
| BufferObjectState.ResizingKeepsConsistent | src-xpl/xpl_bo.c:105-132 | append, clear, delete and the corrected insert and alloc keep the object consistent |
| BufferObjectState.CloneSynchronised | src-xpl/xpl_bo.c:29-35 | a clone holds the source's data on both client and server |
| BufferObjectState.PartialUploadFromWrongSource | src-xpl/xpl_bo.c:75-78 | because the partial upload sends bytes from the start of the content, appending [1, 2, 3, 4], committing, writing 9 at offset 2 and committing leaves [1, 2, 1, 4] on the server; the corrected upload leaves [1, 2, 9, 4] |
| BufferObjectState.CommittedPair | src-xpl/xpl_bo.c:52-93 | appending [1, 2] to a new object and committing puts [1, 2] on both sides |
| BufferObjectState.GrowingUpdateIsLost | src-xpl/xpl_bo.c:105-121 | because insert and alloc only mark dirty, growing a committed [1, 2] asks for a partial update and the server keeps [1, 2] |
| BufferObjectState.GrowingInsertIsKept | src-xpl/xpl_bo.c:117-121 | with the corrected insert, inserting 9 at 0 into a committed [1, 2] and committing leaves [9, 1, 2] on the server |
| BufferObjectState.GrowingAllocIsKept | src-xpl/xpl_bo.c:105-108 | with the corrected alloc, one more byte on a committed [1, 2] commits [1, 2, 0] |
| BufferObjectState.InsertUploadsAll | src-xpl/xpl_bo.c:117-121 | a commit after the corrected insert uploads the whole new data |
| BufferObjectState.AllocUploadsAll | src-xpl/xpl_bo.c:105-108 | a commit after the corrected alloc of a full buffer uploads the old data followed by zeros |
| BufferObjects.BufferObject.constructor | src-xpl/xpl_bo.c:17-27 | xpl_bo_new gives an empty object over a fresh, valid client buffer |
| BufferObjects.BufferObject.Commit | src-xpl/xpl_bo.c:52-93 | the fields become those of the corrected Commit on the old fields |
| BufferObjects.BufferObject.Append | src-xpl/xpl_bo.c:110-115 | the fields become those of Append on the old fields |
| BufferObjects.BufferObject.Clear | src-xpl/xpl_bo.c:123-126 | the fields become those of Clear on the old fields |
| BufferObjects.BufferObject.Delete | src-xpl/xpl_bo.c:128-132 | the fields become those of the corrected Delete on the old fields |
| BufferObjects.BufferObject.Update | src-xpl/xpl_bo.c:134-137 | the fields become those of Update on the old fields |
| BufferObjects.BufferObject.Insert | src-xpl/xpl_bo.c:117-121 | the fields become those of the corrected Insert on the old fields |
| BufferObjects.BufferObject.Alloc | src-xpl/xpl_bo.c:105-108 | the fields become those of the corrected Alloc on the old fields |
| BufferObjects.BufferObject.Clone | src-xpl/xpl_bo.c:29-35 | xpl_bo_clone gives a fresh object whose fields are those of Clone on the source |
| Md5.BytesOf | src-xpl/xpl_hash_md5.c:212-215 | one word is encoded as four bytes |
| Md5.WordOfBytesOf | src-xpl/xpl_hash_md5.c:105-112 | decoding the four little-endian bytes of a word gives the word back |
| Md5.BytesOfWordOf | src-xpl/xpl_hash_md5.c:211-216 | encoding the word decoded from four bytes gives the bytes back |
| Md5.Decode | src-xpl/xpl_hash_md5.c:101-113 | md5_decode turns len bytes, a multiple of 4, into len / 4 words |
| Md5.Encode | src-xpl/xpl_hash_md5.c:207-217 | md5_encode turns n words into 4n bytes |
| Md5.DecodeNext | src-xpl/xpl_hash_md5.c:105-112 | each round of the decode loop appends the word of the next four bytes |
| Md5.EncodeNext | src-xpl/xpl_hash_md5.c:211-216 | each round of the encode loop appends the four bytes of the next word |
| Md5.DecodeEncode | src-xpl/xpl_hash_md5.c:101-217 | decoding what md5_encode wrote gives the words back |
| Md5.EncodeDecode | src-xpl/xpl_hash_md5.c:101-217 | encoding what md5_decode read gives the bytes back |
| Md5.Shift | src-xpl/xpl_hash_md5.c:31-46 | every rotation amount S11..S44 lies strictly between 0 and 32, as ROTATE_LEFT needs |
| Md5.MessageIndex | src-xpl/xpl_hash_md5.c:123-193 | every step of the four rounds reads one of the 16 decoded words |
| Md5.AbsorbConcat | src-xpl/xpl_hash_md5.c:290-297 | transforming the blocks of two pieces one after the other is transforming the blocks of their concatenation |
| Md5.AbsorbOne | src-xpl/xpl_hash_md5.c:293 | absorbing one block is one md5_transform |
| Md5.WholeBlocks | src-xpl/xpl_hash_md5.c:295-297 | the whole blocks of n bytes are a multiple of 64 that leaves a tail shorter than 64 |
| Md5.Padded | src-xpl/xpl_hash_md5.c:319-325 | the padded message is a multiple of 64 bytes, 9 to 72 bytes longer than the message (section 3.1 of RFC 1321) |
| Md5.PaddedSpec | src-xpl/xpl_hash_md5.c:319-325 | the padded message starts with the message followed by 0x80 |
| Md5.Digest | src-xpl/xpl_hash_md5.c:312-337 | the digest is 16 bytes |
| Md5.Hex | src-xpl/xpl_hash_md5.c:221-227 | md5_characterize writes two characters per digest byte |
| Md5.DigitValueOf | src-xpl/xpl_hash_md5.c:225 | each of the 16 lower-case hex digits reads back as its value |
| Md5.DigitsOfByte | src-xpl/xpl_hash_md5.c:225 | the two "%02x" digits of a byte, high nibble first, read back as the byte |
| Md5.UnhexNext | src-xpl/xpl_hash_md5.c:224-226 | reading one more pair of digits appends its byte |
| Md5.HexRoundTrip | src-xpl/xpl_hash_md5.c:221-227 | the digest text reads back as the raw digest |
| Md5.HexDigitsOnly | src-xpl/xpl_hash_md5.c:221-227 | the digest text holds only lower-case hex digits |
| Md5.PadLength | src-xpl/xpl_hash_md5.c:320-321 | finish pads with 1 to 64 bytes |
| Md5.NewTracksNothing | src-xpl/xpl_hash_md5.c:234-252 | a new context holds the empty message: the initial state words, a zero count and an empty buffer |
| Md5.CountWords | src-xpl/xpl_hash_md5.c:280 | the count words hold the bit length modulo 2^64, and count[0] >> 3 & 0x3F is the number of buffered bytes |
| Md5.CountAdvance | src-xpl/xpl_hash_md5.c:282-286 | the count update, with its carry and input_length >> 29, adds the input's bits modulo 2^64 |
| Md5.TakeShort | src-xpl/xpl_hash_md5.c:300-305 | an input that does not fill the block is buffered after the bytes already held |
| Md5.TakeLong | src-xpl/xpl_hash_md5.c:291-305 | an input that fills the block transforms the filled block and every whole block after it and buffers the rest |
| Md5.TakeLongState | src-xpl/xpl_hash_md5.c:291-298 | the state after the long case has absorbed every whole block of the message so far |
| Md5.TakeLongBuffer | src-xpl/xpl_hash_md5.c:299-305 | the buffer after the long case starts with the bytes after the last whole block |
| Md5.TakeLongIs | src-xpl/xpl_hash_md5.c:291-305 | the long case is: fill the buffer, transform it, transform the whole blocks of the input, buffer the rest |
| Md5.UpdateTracks | src-xpl/xpl_hash_md5.c:268-306 | xpl_md5_update keeps the context holding the message fed so far: the count, the whole blocks absorbed into the state, the rest in the buffer |
| Md5.TakeHolds | src-xpl/xpl_hash_md5.c:288-305 | whatever the input's length, state and buffer go on holding the message |
| Md5.FinishPadding | src-xpl/xpl_hash_md5.c:319-322 | the padding finish feeds is 0x80 followed by the zeros that bring the length to 56 modulo 64 |
| Md5.SavedCount | src-xpl/xpl_hash_md5.c:316-317 | the eight count bytes finish saves are the message's bit length modulo 2^64, low byte first (section 3.2 of RFC 1321) |
| Md5.PaddingAbsorbs | src-xpl/xpl_hash_md5.c:319-325 | after the padding and the saved count the state has absorbed the padded message |
| Md5.PaddingIsPadded | src-xpl/xpl_hash_md5.c:316-325 | the message followed by the bytes finish feeds is the padded message |
| Md5.FinishDigest | src-xpl/xpl_hash_md5.c:312-337 | finishing a context that holds a message stores that message's digest and its hex text, and zeroes state, count and buffer |
| Md5.DigestOfMessage | src-xpl/xpl_hash_md5.c:360-364 | digesting bytes with a new context and finishing gives the digest of the bytes |
| Md5.FinishTwiceZeroesDigest | src-xpl/xpl_hash_md5.c:272-275 | a second finish sees a finished context, its updates are ignored, and it stores a digest of zero bytes |
| Md5.EncodeZeros | src-xpl/xpl_hash_md5.c:207-217 | zero words encode as zero bytes |
| Md5Object.EncodeWords | src-xpl/xpl_hash_md5.c:207-217 | the encode loop writes Encode of its input |
| Md5Object.DecodeWords | src-xpl/xpl_hash_md5.c:101-113 | the decode loop writes Decode of its input |
| Md5Object.Characterize | src-xpl/xpl_hash_md5.c:221-227 | the characterize loop writes the hex text of the raw digest |
| Md5Object.TakeBlocks | src-xpl/xpl_hash_md5.c:288-305 | the block loop of xpl_md5_update leaves the state and buffer Take describes |
| Md5Object.AbsorbBlocks | src-xpl/xpl_hash_md5.c:295-297 | the transform loop stops at the last whole block and leaves the state that absorbed the blocks before it |
| Md5Object.Md5Context.constructor | src-xpl/xpl_hash_md5.c:234-252 | xpl_md5_new gives the new context, with md5_transform as block function |
| Md5Object.Md5Context.Update | src-xpl/xpl_hash_md5.c:268-306 | xpl_md5_update leaves the fields Update describes |
| Md5Object.Md5Context.Finish | src-xpl/xpl_hash_md5.c:312-337 | xpl_md5_finish leaves the fields Finish describes |
| Md5Object.Md5Context.Close | src-xpl/xpl_hash_md5.c:327-336 | the end of finish stores the digest, marks the context finished, zeroes state, count and buffer and writes the hex text |
| Md5Object.HexDigest | src-xpl/xpl_hash_md5.c:360-364 | a new context, xpl_md5_digest_bytes and finish leave the hex text of the RFC 1321 digest of the bytes |
| Packet.Pow256Widths | include/game/packet.h:16-18 | two bytes hold values below 2^16 and four bytes values below 2^32 |
| Packet.Le | include/game/packet.h:16-18 | the encode macro stores a k-byte field as exactly k bytes |
| Packet.FromLe | include/game/packet.h:21-23 | the decode macro reads a k-byte field as a value below 256^k |
| Packet.FromLeOfLe | include/game/packet.h:16-23 | a field stored by encode reads back by decode |
| Packet.LeOfFromLe | include/game/packet.h:16-23 | bytes read by decode store back as the same bytes |
| Packet.I16RoundTrip | src/game/packet.c:37-38 | an int16_t velocity stored as its two's-complement bits reads back as itself |
| Packet.DecodeBytes | src/game/packet.c:75-129 | packet_decode returns true exactly for the six known types, and the packet's type is byte 6 of the buffer |
| Packet.EncodedSize | src/game/packet.c:18-73 | packet_encode returns 7 header bytes plus the payload size of the packet's type |
| Packet.FieldAt | include/game/packet.h:16-23 | a field reads back from the bytes that store it |
| Packet.FieldOfConcat | include/game/packet.h:16-23 | a field stored after any prefix reads back at that offset |
| Packet.PositionAt | src/game/packet.c:35-36 | a stored position reads back |
| Packet.VelocityAt | src/game/packet.c:37-38 | a stored velocity reads back |
| Packet.HeaderRoundTrip | src/game/packet.c:21-23 | the header holds the client id at 0, the sequence number at 2 and the type at 6 |
| Packet.IdRoundTrip | src/game/packet.c:26-32 | a hello or goodbye payload decodes back to the client id, nonce and name |
| Packet.PlayerRoundTrip | src/game/packet.c:34-43 | a player payload decodes back to the player |
| Packet.ProjectileRoundTrip | src/game/packet.c:45-54 | a projectile payload decodes back to the projectile |
| Packet.DamageRoundTrip | src/game/packet.c:56-61 | a damage payload decodes back to the damage |
| Packet.BodyRoundTrip | src/game/packet.c:25-70 | every payload, chat included, decodes back to the packet's body |
| Packet.DecodeEncode | src/game/packet.c:18-129 | decoding what packet_encode wrote gives back the client id and the packet, with success exactly for a known type |
| Packet.UnknownTypeIsHeaderOnly | src/game/packet.c:68-69 | a packet of unknown type is encoded as its 7-byte header alone |
| Packet.Written | include/game/packet.h:16-18 | a store keeps the buffer's size |
| Packet.WrittenTwice | include/game/packet.h:16-18 | two stores at consecutive offsets are one store of both |
| Packet.Put | include/game/packet.h:16-18 | the encode macro stores the bytes at the write pointer and advances it past them |
| Packet.PutPlayerId | src/game/packet.c:28-31 | the hello payload is stored at the pointer, which advances past it |
| Packet.PutPosition | src/game/packet.c:35-36 | the position is stored at the pointer, which advances by 8 |
| Packet.PutVelocity | src/game/packet.c:37-38 | the velocity is stored at the pointer, which advances by 4 |
| Packet.PutPlayer | src/game/packet.c:34-43 | the player payload is stored at the pointer, which advances past it |
| Packet.PutProjectile | src/game/packet.c:45-54 | the projectile payload is stored at the pointer, which advances past it |
| Packet.PutTrailer | src/game/packet.c:40-42 | three one-byte fields are stored in a row |
| Packet.PutDamage | src/game/packet.c:56-61 | the damage payload is stored at the pointer, which advances past it |
| Packet.PutHeader | src/game/packet.c:19-23 | the header is stored from the start of the buffer and the pointer ends at 7 |
| Packet.PutBody | src/game/packet.c:25-70 | the payload the type selects is stored at the pointer, which advances by its size |
| Packet.Encode | src/game/packet.c:18-73 | packet_encode writes the encoded packet at the start of the buffer, returns its length and leaves the rest of the buffer unchanged |
| Packet.WrittenFromStart | include/game/packet.h:16-18 | a store at offset 0 leaves its bytes first and the rest of the buffer as it was |
| Packet.GetPlayerId | src/game/packet.c:85-88 | the hello reads give the id at the pointer |
| Packet.GetPosition | src/game/packet.c:92-93 | the position reads give the position at the pointer |
| Packet.GetVelocity | src/game/packet.c:94-95 | the velocity reads give the velocity at the pointer |
| Packet.GetPlayer | src/game/packet.c:91-100 | the player reads give the player at the pointer |
| Packet.GetProjectile | src/game/packet.c:102-111 | the projectile reads give the projectile at the pointer |
| Packet.GetDamage | src/game/packet.c:113-118 | the damage reads give the damage at the pointer |
| Packet.Decode | src/game/packet.c:75-129 | packet_decode gives the outcome DecodeBytes describes for the buffer's bytes |
| ModelLoader.FirstSlashBeforeDoubleSlash | src-xpl/xpl_model_loader.c:202-205 | in a token containing "//", the first slash is followed by at least one more character, so skipping two characters past it stays inside the token |
| ModelLoader.AfterSlash | src-xpl/xpl_model_loader.c:209-210 | the text after the first slash is shorter than the token |
| ModelLoader.NoSlashInNumber | src-xpl/xpl_model_loader.c:200-206 | a decimal index contains no slash, and so no "//" |
| ModelLoader.AfterSlashOfPrefix | src-xpl/xpl_model_loader.c:209 | strchr finds the separator after a slash-free number |
| ModelLoader.AtoiOfNumberThen | src-xpl/xpl_model_loader.c:200 | atoi of a token reads the leading number and stops at the separator |
| ModelLoader.AtoiOfNumber | src-xpl/xpl_model_loader.c:210 | atoi reads a decimal index back |
| ModelLoader.NoDoubleSlash | src-xpl/xpl_model_loader.c:202 | a token without two adjacent slashes does not contain "//" |
| ModelLoader.SlashThenNumber | src-xpl/xpl_model_loader.c:202-216 | appending a slash and a number to a token that does not end in a slash creates no "//" |
| ModelLoader.ParseNoSlash | src-xpl/xpl_model_loader.c:197-200 | a token without a slash gives only its vertex index; texture and normal stay 0 |
| ModelLoader.ParseOneSlash | src-xpl/xpl_model_loader.c:206-211 | a token with one slash gives the vertex and the texture index that follows the slash |
| ModelLoader.ParseTwoSlashes | src-xpl/xpl_model_loader.c:206-216 | a token with two separate slashes gives vertex, texture and normal |
| ModelLoader.ParseDoubleSlash | src-xpl/xpl_model_loader.c:202-205 | a token with "//" gives the vertex and the normal read two characters past the first slash |
| ModelLoader.ParseVertexOnly | src-xpl/xpl_model_loader.c:196-220 | "v" parses as vertex v with texture and normal 0 |
| ModelLoader.ParseVertexTexture | src-xpl/xpl_model_loader.c:196-220 | "v/t" parses as vertex v, texture t, normal 0 |
| ModelLoader.ParseVertexTextureNormal | src-xpl/xpl_model_loader.c:196-220 | "v/t/n" parses as vertex v, texture t, normal n |
| ModelLoader.ParseVertexNormal | src-xpl/xpl_model_loader.c:196-220 | "v//n" parses as vertex v, texture 0, normal n |
| ModelLoader.ParseVertexIndex | src-xpl/xpl_model_loader.c:191-223 | wf_parse_vertex_index fills one vertex, texture and normal index per token, each as the token's parse gives it, and counts the tokens |
| ModelLoader.ConvertIndex | src-xpl/xpl_model_loader.c:227-231 | wf_convert_index turns a positive 1-based index into the 0-based one below it |
| ModelLoader.ConvertIndices | src-xpl/xpl_model_loader.c:233-237 | wf_convert_indices turns every positive 1-based index into its 0-based one |
| ModelLoader.FaceOf | src-xpl/xpl_model_loader.c:239-262 | a face has one vertex, texture and normal index per token |
| ModelLoader.PartialFacesAssert | src-xpl/xpl_model_loader.c:196-251 | a face written as "v", "v/t" or "v//n" keeps a 0 texture or normal index from the parse, so it fails the `index > 0` assert of wf_convert_index whatever its indices |
| ModelLoader.ParseVector | src-xpl/xpl_model_loader.c:155-182 | wf_parse_vector reads x, y and the negated z from the tokens present, each missing component being 0 |
| ModelLoader.ObjModel.constructor | src-xpl/xpl_model_loader.c:93-110 | a new model has no materials, faces, vertices, normals or texture coordinates, and zero counts |
| ModelLoader.ObjModel.ParseFace | src-xpl/xpl_model_loader.c:239-262 | wf_parse_face appends the converted face with the current material, counts one face and its vertices, and changes nothing else |
| ModelLoader.ObjModel.FindMaterial | src-xpl/xpl_model_loader.c:264-273 | wf_find_material returns the position of the first material with the name, or -1 exactly when there is none |
| ModelLoader.ObjModel.LoadLine | src-xpl/xpl_model_loader.c:364-395 | one line of xpl_model_load_obj appends a vector for "v", "vn" and "vt", a face for "f", and for "usemtl" makes the current material the first one with that name or -1 |
| ModelLoader.IndexOfFirst | src-xpl/xpl_model_loader.c:264-273 | the first occurrence of a name is at a position holding it, with no earlier one |
| ModelLoader.FirstIndexUnique | src-xpl/xpl_model_loader.c:264-273 | a position holding the name with no earlier occurrence is the first occurrence |
| FrameCache.FetchFinds | src-xpl/xpl_command_render.c:142-162 | a lookup finds an entry exactly when one table holds the key, and returns that entry |
| FrameCache.FetchMovesOnly | src-xpl/xpl_command_render.c:153-161 | a lookup only moves a last_frame entry into this_frame: the cache holds the same entries, the tables stay separate, and a found key is now in this_frame |
| FrameCache.FetchTwice | src-xpl/xpl_command_render.c:147-151 | a second lookup of the same key in one frame is a plain this_frame hit with the same answer |
| FrameCache.AddedAfterMiss | src-xpl/xpl_command_render.c:164-167 | adding under a key that missed keeps the tables separate, adds exactly that entry, and the next lookup finds it |
| FrameCache.AdvancedKeepsThisFrame | src-xpl/xpl_command_render.c:169-180 | after advancing, the cache holds exactly the entries used in the frame that ended |
| FrameCache.UsedSurvivesAdvance | src-xpl/xpl_command_render.c:169-180 | an entry looked up in one frame survives the advance and is handed back, the same entry, in the next frame |
| FrameCache.UnusedIsEvicted | src-xpl/xpl_text_cache.c:173-185 | an entry not used since the last advance is destroyed by the next one and no longer found |
| TextCache.MissCreates | src-xpl/xpl_text_cache.c:205-219 | on a miss xpl_text_cache_get builds an entry for this markup key and text, under their key, in this_frame, and adds nothing else |
| TextCache.HitReturnsHeld | src-xpl/xpl_text_cache.c:214-223 | on a hit in either table xpl_text_cache_get returns the held entry, loses nothing and leaves it in this_frame |
| TextCache.GotTwice | src-xpl/xpl_text_cache.c:205-224 | asking twice in one frame gives the same entry and builds nothing more |
| TextCache.CollidingTextsShareEntry | src-xpl/xpl_text_cache.c:64-69 | the table compares only the hashed key, so a text whose key collides with a cached one gets the cached text's entry |
| TextCacheObject.Cache.constructor | src-xpl/xpl_text_cache.c:147-153 | xpl_text_cache_new starts with two empty tables |
| TextCacheObject.Cache.Get | src-xpl/xpl_text_cache.c:205-224 | the tables and the returned entry are those Got describes, and an entry is built exactly on a miss |
| TextCacheObject.Cache.AdvanceFrame | src-xpl/xpl_text_cache.c:173-185 | the tables become those Advanced describes and stay separate |
| TextConsole.FirstRow | src/text/text_buffer.c:199-204 | the scroll range's first row is a row of the grid: 0 when unset, else scroll_range_min |
| TextConsole.LastRow | src/text/text_buffer.c:206-211 | the scroll range's last row is a row of the grid not above the first: the bottom row when unset, else scroll_range_max |
| TextConsole.PositionOfPointer | src/text/text_buffer.c:158-188 | character_pointer of a grid position names a cell of the grid, and character_position gives the position back |
| TextConsole.PointerOfPosition | src/text/text_buffer.c:158-188 | every cell lies in a row of the grid, as character_position asserts, and character_pointer gives the cell back |
| TextConsole.RowEnd | src/text/text_buffer.c:232-233 | the end of any row lies inside the grid |
| TextConsole.BottomRow | src/text/text_buffer.c:270 | the bottom row's first cell is one row before the end of the grid |
| TextConsole.NextRowInGrid | src/text/text_buffer.c:264-267 | the next row starts after the cursor and inside the grid; above the bottom row it is the first column of the row below |
| TextConsole.ScrollBottom | src/text/text_buffer.c:268-272 | the bottom-row wrap leaves a screen of the same grid with the cursor inside it |
| TextConsole.Wrap | src/text/text_buffer.c:262-272 | the wrap leaves a screen of the same grid with the cursor inside it |
| TextConsole.Put | src/text/text_buffer.c:245-276 | one character leaves a screen of the same grid with the cursor inside it |
| TextConsole.TabSpaces | src/text/text_buffer.c:253-254 | a tab pads with 1 to tab_width (4) spaces |
| TextConsole.PutSpaces | src/text/text_buffer.c:255-257 | the padding leaves a screen of the same grid with the cursor inside it |
| TextConsole.Type | src/text/text_buffer.c:245-276 | one character, tab included, leaves a screen of the same grid with the cursor inside it |
| TextConsole.TypeText | src/text/text_buffer.c:239-277 | text_buffer_add_text_inner never moves the cursor out of the grid |
| TextConsole.PutPrintable | src/text/text_buffer.c:247-248 | a printable character away from the last cell lands at the cursor, the cursor moves one cell on, and no other cell changes |
| TextConsole.PutNewline | src/text/text_buffer.c:262-267 | above the bottom row a newline blanks the rest of the cursor's row and moves the cursor to the start of the next row, changing no other cell |
| TextConsole.PutScrolls | src/text/text_buffer.c:262-272 | on the bottom row a newline or the last cell scrolls: the scroll range's rows move up one, rows outside it keep their cells, the bottom row is blank and the cursor starts it; a character typed at the last cell is blanked before the scroll |
| TextConsole.ScrollBottomCells | src/text/text_buffer.c:213-228 | scroll_up moves each row of the scroll range but its last up from the row below, leaves the other rows, and the wrap then blanks the bottom row |
| TextConsole.PutSpacesAdvance | src/text/text_buffer.c:253-258 | where the row has room, a tab moves the cursor on by its spaces and blanks exactly the cells it passes |
| TextConsole.Left | src/text/text_buffer.c:459-465 | input_left moves the cursor one back, but not before the input's start, and changes nothing else |
| TextConsole.Right | src/text/text_buffer.c:467-473 | input_right moves the cursor one on, but not past the input's end, and changes nothing else |
| TextConsole.Delete | src/text/text_buffer.c:428-436 | the corrected input_delete removes the character at the cursor from the input text and shortens the input by one; at the input's end it changes nothing |
| TextConsole.Backspace | src/text/text_buffer.c:438-445 | input_backspace removes the character before the cursor and moves the cursor onto it; at the input's start it changes nothing |
| TextConsole.Insert | src/text/text_buffer.c:399-426 | the corrected input_character puts the character at the cursor, and with room in the grid inserts it into the input text and moves cursor and end one on |
| TextConsole.OpenedText | src/text/text_buffer.c:412-416 | the shifting loop of input_character inserts the character into the input text |
| TextConsole.BackspaceUndoesInsert | src/text/text_buffer.c:399-445 | typing a character then backspace gives back the input text, the cursor and the end |
| TextConsole.DeleteAtEndLeavesInput | src/text/text_buffer.c:434-435 | as written, delete with the cursor at the input's end moves the end before the cursor, so the cursor leaves the input; the corrected delete changes nothing |
| TextConsole.InsertNearEndOverruns | src/text/text_buffer.c:417 | as written, typing with the input ending two cells before the grid's end writes past the grid; the corrected insert gives "abc" |
| TextConsole.BufferedTake | src/text/text_buffer.c:390-395 | a character that fits is copied, and the room left shrinks by one |
| TextConsole.BufferedSkip | src/text/text_buffer.c:390-395 | a NUL cell adds nothing to the copy |
| TextConsole.BufferedStop | src/text/text_buffer.c:392 | the copy stops at the first character for which the room left would reach zero |
| TextConsole.BufferedFits | src/text/text_buffer.c:384-397 | the copy holds no NUL, is no longer than the input, and leaves room for the terminating NUL |
| TextConsole.BufferedAll | src/text/text_buffer.c:384-397 | with room for more than the input, the whole input but its NUL cells is copied |
| TextConsole.Record | src/text/text_buffer.c:519-522 | input_enter stores the line in the current slot, counts it up to HISTORY_LEN and moves the slot on, wrapping |
| TextConsole.Up | src/text/text_buffer.c:489-498 | input_up keeps the lines and their count, and with a recorded line moves to a recorded slot |
| TextConsole.Down | src/text/text_buffer.c:500-508 | input_down keeps the lines and their count, and with a recorded line moves to a recorded slot |
| TextConsole.UpRecallsLast | src/text/text_buffer.c:489-522 | up right after enter recalls the line just entered |
| TextConsole.DownUndoesUp | src/text/text_buffer.c:489-508 | down after up comes back to the slot |
| TextConsoleObject.CloseCell | src/text/text_buffer.c:430-434 | input_delete's loop moves the cells after the cursor one back and blanks the end |
| TextConsoleObject.OpenCell | src/text/text_buffer.c:412-416 | input_character's loop moves each cell from the cursor on one on and puts the character at the cursor |
| TextConsoleObject.Terminated | src/text/text_buffer.c:387-394 | a buffer holding the copy cell by cell and then a NUL starts with the copy and its NUL |
| TextConsoleObject.PutChar | src/text/text_buffer.c:393 | strncat appends the character and keeps the buffer NUL-terminated |
| TextConsoleObject.CopyTakes | src/text/text_buffer.c:391-394 | a character that fits moves from the rest of the input to the copy |
| TextConsoleObject.CopySkips | src/text/text_buffer.c:391-394 | a NUL in the input is passed over |
| TextConsoleObject.CopyEnds | src/text/text_buffer.c:390-392 | the copy is complete at the end of the input or at the first character that does not fit |
| TextConsoleObject.CopyInput | src/text/text_buffer.c:384-397 | the loop writes the characters that fit, then a NUL, within len characters |
| TextConsoleObject.Console.constructor | src/text/text_buffer.c:89-135 | text_buffer_new sizes the grid, unsets the scroll range, puts cursor and input at the first cell and starts with no history |
| TextConsoleObject.Console.Clear | src/text/text_buffer.c:279-290 | text_buffer_clear makes every cell a space and puts the cursor at the first cell |
| TextConsoleObject.Console.SetCursorPosition | src/text/text_buffer.c:326-334 | text_buffer_set_cursor_position puts the cursor at the position, with an empty input there |
| TextConsoleObject.Console.SetScrollRange | src/text/text_buffer.c:336-343 | text_buffer_set_scroll_range makes min and max the scroll range's first and last rows |
| TextConsoleObject.Console.ClearScrollRange | src/text/text_buffer.c:345-348 | text_buffer_clear_scroll_range makes the whole grid scroll |
| TextConsoleObject.Console.ClearToEndOfLine | src/text/text_buffer.c:230-237 | clear_to_end_of_line blanks exactly the cells from the cursor to the end of its row |
| TextConsoleObject.Console.ScrollUp | src/text/text_buffer.c:213-228 | scroll_up leaves the cells Scrolled describes; a one-row range is left alone |
| TextConsoleObject.Console.ScrollBottom | src/text/text_buffer.c:268-272 | the bottom-row wrap leaves the screen ScrollBottom describes |
| TextConsoleObject.Console.Wrap | src/text/text_buffer.c:262-272 | the wrap leaves the screen Wrap describes |
| TextConsoleObject.Console.Put | src/text/text_buffer.c:245-276 | one character other than a tab leaves the screen Put describes |
| TextConsoleObject.Console.AddTextInner | src/text/text_buffer.c:239-277 | text_buffer_add_text_inner leaves the screen TypeText describes |
| TextConsoleObject.Console.InputLeft | src/text/text_buffer.c:459-465 | input_left leaves the input Left describes |
| TextConsoleObject.Console.InputRight | src/text/text_buffer.c:467-473 | input_right leaves the input Right describes |
| TextConsoleObject.Console.InputHome | src/text/text_buffer.c:447-451 | input_home puts the cursor at the input's start |
| TextConsoleObject.Console.InputEnd | src/text/text_buffer.c:453-457 | input_end puts the cursor at the input's end |
| TextConsoleObject.Console.InputDelete | src/text/text_buffer.c:428-436 | input_delete leaves the input the corrected Delete describes |
| TextConsoleObject.Console.InputBackspace | src/text/text_buffer.c:438-445 | input_backspace leaves the input Backspace describes |
| TextConsoleObject.Console.InputCharacter | src/text/text_buffer.c:399-426 | input_character leaves the input the corrected Insert describes |
| TextConsoleObject.Console.GetBufferedInput | src/text/text_buffer.c:384-397 | text_buffer_get_buffered_input writes the input's characters that fit in len, then a NUL |
| TextConsoleObject.Console.RecordLine | src/text/text_buffer.c:519-522 | input_enter's record leaves the history Record describes |
| TextConsoleObject.Console.HistoryUp | src/text/text_buffer.c:489-498 | input_up leaves the history Up describes and recalls the line in the new slot, or nothing with no history |
| TextConsoleObject.Console.HistoryDown | src/text/text_buffer.c:500-508 | input_down leaves the history Down describes and recalls the line in the new slot, or nothing with no history |
| CommandRender.RgbaBytesPacks | src-xpl/xpl_command_render.c:232-234 | rgba packs red into the low byte, then green, blue and alpha, and each channel reads back as given |
| CommandRender.Transparent | src-xpl/xpl_command_render.c:274-277 | the transparent colour keeps red, green and blue and has alpha zero |
| CommandRender.TransparentFixesOnlyClear | src-xpl/xpl_command_render.c:274-277 | making a colour transparent leaves it unchanged exactly when its alpha is already zero |
| CommandRender.Edges | src-xpl/xpl_command_render.c:284-305 | the edge loop emits six vertices per side |
| CommandRender.Fan | src-xpl/xpl_command_render.c:307-317 | the interior loop emits three vertices per triangle, one triangle for each corner after the second |
| CommandRender.AllocatedFitsMesh | src-xpl/xpl_command_render.c:279-318 | with 2 to TEMP_COORD_COUNT corners the allocation is exactly the mesh's size, so the final assertion holds |
| CommandRender.FewCornersWrap | src-xpl/xpl_command_render.c:279 | with one corner the size_t count is 3 while the edge loop writes 6; with none it wraps to 2^64 - 6 |
| CommandRender.EdgesAt | src-xpl/xpl_command_render.c:285-305 | the six vertices at 6i are side i: its corner, the trailing corner, the trailing and own pushed-out points, its corner again |
| CommandRender.MeshEdge | src-xpl/xpl_command_render.c:285-305 | the mesh's vertices at 6i are side i's border |
| CommandRender.FanAt | src-xpl/xpl_command_render.c:308-317 | the interior triangle t is corners 0, t+1 and t+2 |
| CommandRender.MeshFan | src-xpl/xpl_command_render.c:308-317 | after the border the mesh's triangle t is corners 0, t+1 and t+2 |
| CommandRender.EdgesInRange | src-xpl/xpl_command_render.c:285-305 | the edge loop reads only corners of the polygon |
| CommandRender.FanInRange | src-xpl/xpl_command_render.c:308-317 | the interior loop reads only corners of the polygon |
| CommandRender.MeshInRange | src-xpl/xpl_command_render.c:284-317 | the whole mesh reads only corners of the polygon |
| CommandRender.OwnedBy | src-xpl/xpl_command_render.c:783-794 | only text and polygon commands own allocations, and only a polygon owns points |
| CommandRender.Identity | src-xpl/xpl_command_render.c:795 | the reset matrix is the 4x4 identity |
| CommandRenderObject.Put | src-xpl/xpl_command_render.c:286-304 | one write appends the vertex and shades it with the colour or the transparent colour |
| CommandRenderObject.EmitSide | src-xpl/xpl_command_render.c:286-304 | one pass of the edge loop appends side i's six vertices, each shaded |
| CommandRenderObject.EmitEdges | src-xpl/xpl_command_render.c:284-305 | the edge loop writes Edges, each vertex shaded |
| CommandRenderObject.EmitTriangle | src-xpl/xpl_command_render.c:309-316 | one pass of the interior loop appends corners 0, i-1 and i in the polygon's colour |
| CommandRenderObject.EmitFan | src-xpl/xpl_command_render.c:307-317 | after the border the interior loop completes the mesh, each vertex shaded |
| CommandRenderObject.EmitPolygon | src-xpl/xpl_command_render.c:279-318 | the vertex and colour arrays have the allocated size and hold the mesh and its shades |
| CommandRenderObject.PolygonGeometry | src-xpl/xpl_command_render.c:236-337 | geometry_cache_polygon builds an entry under the key holding the mesh, n*6 + (n-2)*3 vertices, and its colours |
| CommandRenderObject.GeometryCache.constructor | src-xpl/xpl_command_render.c:116-121 | geometry_cache_new starts with two empty tables |
| CommandRenderObject.GeometryCache.Get | src-xpl/xpl_command_render.c:142-162 | geometry_cache_get answers and moves entries as the frame-cache lookup does, keeping the tables separate |
| CommandRenderObject.GeometryCache.Cache | src-xpl/xpl_command_render.c:164-167 | geometry_cache adds the entry to this_frame |
| CommandRenderObject.GeometryCache.AdvanceFrame | src-xpl/xpl_command_render.c:169-180 | advance_frame drops last_frame, makes this_frame the last and starts an empty one |
| CommandRenderObject.GeometryCache.PolygonFor | src-xpl/xpl_command_render.c:339-357 | draw_polygon's cache pass reuses a held geometry unchanged, and otherwise builds the polygon's mesh and caches it; either way it is in this_frame |
| CommandRenderObject.RenderCmd.constructor | include-xpl/xpl_command_render.h:24-28 | a command starts with the given type, matrix and point count |
| CommandRenderObject.RenderCmd.ContentReset | src-xpl/xpl_command_render.c:783-797 | xpl_render_cmd_content_reset frees what the command owns, zeroes a polygon's point count, sets the identity matrix and the invalid type |
| ContextGame.Scan | src/context/context_game.c:1523-1545 | the lookup loop only ever names a slot of the table |
| ContextGame.ScanOutcome | src/context/context_game.c:1525-1537 | from any point of the loop: a live slot returned is the first live one with the pid; a slot allocated is empty, comes before every live slot with the pid, and when its own pid differs no slot is live with the pid; -1 means no live slot with the pid and, when creating, no empty slot |
| ContextGame.PidLookup | src/context/context_game.c:1523-1545 | projectile_with_pid_get returns the first live slot with the pid; otherwise, when creating, the first empty slot; otherwise -1, and then no slot is live with the pid and, when creating, none is empty |
| ContextGame.ScanReaches | src/context/context_game.c:1525-1530 | a live slot with the pid is reached when no slot from the current one up to it holds the pid |
| ContextGame.PidLookupFindsLive | src/context/context_game.c:1525-1530 | a live slot with the pid is returned when no slot before it has the pid |
| ContextGame.PidLookupWithoutCreate | src/context/context_game.c:1522-1545 | with a negative type nothing is allocated, and -1 comes back exactly when no slot is live with the pid |
| ContextGame.Initialized | src/context/context_game.c:1513-1516 | projectile_initialize gives the slot the pid, the type and the type's initial health, which is positive |
| ContextGame.LeastFromIsLeast | src/context/context_game.c:1762-1785 | the scan of text_particle_find_new returns a slot of the pool: a dead one when there is one, else one of least life |
| ContextGame.FindNewChoosesWell | src/context/context_game.c:1762-1785 | text_particle_find_new, and particle_find_new as intended, return a slot of the pool: a dead one when there is one, else one of least life |
| ContextGame.LeastFromAsWrittenIsZero | src/context/context_game.c:1212-1221 | as written, with every particle alive the scan records slot 0 for each smaller life and so returns 0 |
| ContextGame.FindNewAsWrittenPicksZero | src/context/context_game.c:1201-1224 | as written, particle_find_new returns slot 0 whenever every particle is alive |
| ContextGame.ParticleFindNewIgnoresLeast | src/context/context_game.c:1218-1219 | with all alive and slot 1 shorter-lived than slot 0, the code as written recycles slot 0 while the intended finder picks a slot of life at most slot 1's |
| ContextGame.Truncated | src/context/context_game.c:895 | vsnprintf into LOG_LINE_MAX keeps a prefix of at most 511 characters, the whole message when it fits |
| ContextGame.Advanced | src/context/context_game.c:901-906 | log_advance_line moves lines 1 and 2 up and empties line 2 |
| ContextGame.AdvanceThriceClears | src/context/context_game.c:901-906 | three advances with no new message empty the log |
| ContextGame.LogAfterAsWritten | src/context/context_game.c:884-899 | the log keeps three lines whatever messages are added |
| ContextGame.TruncatedAll | src/context/context_game.c:895 | each message of a series is truncated as vsnprintf does |
| ContextGame.LogShowsLatest | src/context/context_game.c:884-906 | as written, the log after a series of messages shows the last three lines of the old lines followed by the truncated messages |
| ContextGame.FirstMessageGoesLast | src/context/context_game.c:886-887 | as written, a message added to the empty log lands on line 2; as intended it lands on line 0 |
| ContextGame.AddedKeepsLines | src/context/context_game.c:885-895 | as intended, while line 0 or 1 is empty the message fills the first empty one and no other line changes |
| ContextGame.FiringCharges | src/context/context_game.c:1313-1324 | a shot needs the fire key and an affordable weapon; it lowers the score by exactly the price, a free weapon costs nothing, the weapon is kept and the cooldown stays non-negative |
| ContextGame.FiringStartsCooldown | src/context/context_game.c:1313-1324 | right after a shot the next update cannot fire, jiffy or not |
| ContextGame.LastPressed | src/context/context_game.c:1359-1366 | the weapon loop leaves the last weapon whose key is held, or the current one when none is |
| ContextGame.SelectedIsAffordable | src/context/context_game.c:1359-1371 | player_local_update_weapon always leaves a weapon the score pays for |
| ContextGame.SelectedWeaponFires | src/context/context_game.c:1313-1371 | with the cooldown over, the fire key fires the selected weapon |
| ContextGame.Listed | src/context/context_game.c:871-879 | key_down reads the keys before the array's zero terminator |
| ContextGame.PlayerName | src/context/context_game.c:1373-1379 | player_name gives "yourself" or "You" for player 0, the player's name when set, else "A Player" |
| ContextGameObject.FindClient | src/context/context_game.c:1411-1421 | the loop returns the first connected slot with the client id; otherwise it reports the first free slot, or -1 when every slot is connected |
| ContextGameObject.Players.constructor | src/context/context_game.c:859-867 | after game_reset no player slot is connected |
| ContextGameObject.Players.WithClientId | src/context/context_game.c:1410-1438 | player_with_client_id_get returns the connected slot with the id unchanged; without one it returns -1 unless allocating, when it connects the first free slot (never slot 0) with the id and reports a new player |
| ContextGameObject.ScanSlots | src/context/context_game.c:1524-1537 | the loop over game.projectile ends as Scan says |
| ContextGameObject.Projectiles.constructor | src/context/context_game.c:859-867 | after game_reset every projectile slot is zero |
| ContextGameObject.Projectiles.WithPid | src/context/context_game.c:1522-1545 | projectile_with_pid_get returns the lookup's slot, initializes a slot it allocates and changes nothing else |
| ContextGameObject.Projectiles.Initialize | src/context/context_game.c:1513-1516 | projectile_initialize sets the slot's pid, health and type and no other slot |
| ContextGameObject.Least | src/context/context_game.c:1771-1784 | the loop of text_particle_find_new computes the intended scan |
| ContextGameObject.LeastAsWritten | src/context/context_game.c:1210-1223 | the loop of particle_find_new computes the scan as written |
| ContextGameObject.ParticlePool.constructor | src/context/context_game.c:859-867 | a reset pool has every life zero and last_index 0 |
| ContextGameObject.ParticlePool.FindNew | src/context/context_game.c:1762-1785 | text_particle_find_new returns the intended finder's slot and remembers it in last_index |
| ContextGameObject.ParticlePool.FindNewAsWritten | src/context/context_game.c:1201-1224 | particle_find_new returns the as-written finder's slot and remembers it in last_index |
| ContextGameObject.AsWrittenFindsDead | src/context/context_game.c:1212-1216 | with a dead particle present the as-written scan returns a slot of the pool |
| ContextGameObject.AsWrittenStopsAtDead | src/context/context_game.c:1212-1216 | the as-written scan stops at or before the first dead particle |
| ContextGameObject.Log.constructor | src/context/context_game.c:541 | the log starts with three empty lines |
| ContextGameObject.Log.AdvanceLine | src/context/context_game.c:901-906 | log_advance_line leaves the lines Advanced describes and asks for a rebuild |
| ContextGameObject.Log.AddTextAsWritten | src/context/context_game.c:884-899 | log_add_text as written leaves the lines AddedAsWritten describes and asks for a rebuild |
| ContextGameObject.Log.AddText | src/context/context_game.c:884-899 | log_add_text as intended leaves the lines Added describes and asks for a rebuild |
| ContextGameObject.LastPressedKey | src/context/context_game.c:1360-1366 | the loop over the weapon keys computes LastPressed |
| ContextGameObject.KeyDown | src/context/context_game.c:871-879 | key_down is true exactly when some key before the terminator is held |
| ContextGameObject.LocalPlayer.constructor | src/context/context_game.c:859-867 | after game_reset the score, cooldown and weapon are zero |
| ContextGameObject.LocalPlayer.UpdateFiring | src/context/context_game.c:1313-1324 | player_local_update_firing leaves the state Firing describes and fires as it says |
| ContextGameObject.LocalPlayer.UpdateWeapon | src/context/context_game.c:1359-1371 | player_local_update_weapon leaves the weapon Selected describes |
| Imui.Preference | src-xpl/xpl_imui.c:650-675 | each widget state tries all four colour slots, its own first |
| Imui.FirstSet | src-xpl/xpl_imui.c:650-675 | the slot color_chad picks is the first one not NO_COLOR, or the last one when all are unset |
| Imui.ColorChadFallsBack | src-xpl/xpl_imui.c:650-675 | color_chad returns the first colour of the state's preference order that is set, and the order's last slot when none is |
| Imui.ColorChadPrefersOwnSlot | src-xpl/xpl_imui.c:650-675 | a set slot is always used in its own state: disabled, active, hot or cold |
| Imui.DefaultIdValue | src-xpl/xpl_imui.c:677-681 | while the widget counter is below 2^16 and the area counter below 2^48, (area << 16) OR widget is area * 2^16 + widget |
| Imui.DefaultIdParts | src-xpl/xpl_imui.c:677-681 | within those bounds an id gives back its area and its widget |
| Imui.DefaultIdsDistinct | src-xpl/xpl_imui.c:677-681 | within those bounds two ids are equal exactly when their areas and widgets are |
| Imui.DefaultIdIncreases | src-xpl/xpl_imui.c:677-681 | within one area the next widget gets a larger id |
| Imui.KeyTransition | src-xpl/xpl_imui.c:574-578 | key_state_transition records the key as down when it is, and active exactly on the frame it goes down |
| Imui.HeldKeyFiresOnce | src-xpl/xpl_imui.c:574-578 | a key held over two frames is not active on the second |
| Imui.RepressFiresAgain | src-xpl/xpl_imui.c:574-578 | released and pressed again, a key is active again |
| Imui.ButtonClickNeedsRelease | src-xpl/xpl_imui.c:383-419 | a button fires by mouse only when the mouse is released over a button that is hot and was or became active |
| Imui.ButtonClicksOnRelease | src-xpl/xpl_imui.c:403-412 | an active hot button fires when the mouse is released |
| Imui.ButtonReleaseClearsActive | src-xpl/xpl_imui.c:409-413 | on release control_active_clear clears the active control, the released state, the typed keys and the key presses |
| Imui.ButtonRespectsOtherActive | src-xpl/xpl_imui.c:388-400 | a button never takes over from another active control, and then only its Enter or Escape shortcut fires it |
| Imui.ButtonTakesActive | src-xpl/xpl_imui.c:388-404 | a hot button under a held mouse with nothing active becomes active, went active, takes the keyboard and is marked active and hot |
| Imui.ButtonHoverIsDeferred | src-xpl/xpl_imui.c:388-408 | hovering sets hot_to_be_id and leaves hot_id for the next frame |
| Imui.TypeKeyInserts | src-xpl/xpl_imui.c:438-462 | in the corrected step, where printable keys are characters, a character typed into a field with room goes in at the cursor, the rest of the text follows it, and the cursor moves past it |
| Imui.FullFieldIgnoresTyping | src-xpl/xpl_imui.c:443-447 | a field holding max_len characters ignores every typed key |
| Imui.TypeKeyOk | src-xpl/xpl_imui.c:436-465 | one corrected typing step keeps the text within max_len, free of NUL, with the cursor in it |
| Imui.TypeKeysOk | src-xpl/xpl_imui.c:433-466 | so does the whole corrected loop over the typed keys |
| Imui.RemovalsOk | src-xpl/xpl_imui.c:479-503 | the corrected backspace and delete keep a field well formed |
| Imui.TextfieldOk | src-xpl/xpl_imui.c:426-507 | the corrected control_logic_textfield keeps the text within max_len, free of NUL, with the cursor in it |
| Imui.MovesClamp | src-xpl/xpl_imui.c:471-477 | cursor left stops at 0 and cursor right at the end of the text, each moving one place otherwise |
| Imui.DeleteAtCursor | src-xpl/xpl_imui.c:494-503 | delete removes exactly the character under the cursor and keeps the cursor; at the end it changes nothing |
| Imui.BackspaceAtEnd | src-xpl/xpl_imui.c:481-483 | backspace at the end of a non-empty text removes its last character |
| Imui.BackspaceUndoesTyping | src-xpl/xpl_imui.c:438-492 | with the corrected typing step and backspace, backspace after typing a character gives back the field |
| Imui.DeleteUndoesTyping | src-xpl/xpl_imui.c:438-503 | with the corrected typing step, cursor left then delete after typing a character gives back the field |
| Imui.BackspaceOnEmptyField | src-xpl/xpl_imui.c:481-483 | as written, backspace on an empty field writes before the buffer; corrected, it leaves the field alone |
| Imui.InsertNearFullOverruns | src-xpl/xpl_imui.c:453-458 | as written, the letter 'b' is ignored and the key XPL_KEY_SPECIAL + 'b', which types 'b', overflows the scratch array when typed before "a" in a field of max_len 2; corrected, typing 'b' there gives "ba" |
| Imui.TypeKeyAsWrittenAgrees | src-xpl/xpl_imui.c:438-462 | when appending, or with room for the text, its new character and the NUL, the step as written ignores every key that is not above XPL_KEY_SPECIAL and types any other key whose low byte is not 0 as the corrected step types that low byte |
| Imui.ZeroByteKeyKeepsText | src-xpl/xpl_imui.c:446-458 | as written, a key above XPL_KEY_SPECIAL whose low byte is 0 leaves the text as it was, since the NUL it types ends the string and strcat restores the rest; the cursor moves on, past the text when appending, and the scratch array never overflows |
| Imui.BackspaceAsWrittenAgrees | src-xpl/xpl_imui.c:479-492 | on a non-empty field the backspace as written and the corrected one agree |
| Imui.EnqueueBounded | src-xpl/xpl_imui.c:529-533 | input_handle_char takes a character exactly when fewer than MAX_WAITING_KEYS wait, appends it in order, and otherwise leaves the queue alone |
| Imui.Typed | src-xpl/xpl_imui.c:433-434 | the textfield reads the typed keys up to the first 0 |
| Imui.FullQueueOverrunsTyped | src-xpl/xpl_imui.c:591-594 | as written, eight waiting keys under a keyboard focus put the terminator at typed[8], past the array; corrected, the textfield sees all eight |
| Imui.FlushAgrees | src-xpl/xpl_imui.c:591-594 | below a full queue the flush as written and the corrected one agree, and a queue of positive keys reaches typed whole and in order |
| Imui.TabBackAndForth | src-xpl/xpl_imui.c:597-606 | Tab then shift-Tab bring the keyboard target back to the focused control |
| ImuiObject.StrLen | src-xpl/xpl_imui.c:437 | strlen of a held C string is its length |
| ImuiObject.InsertAt | src-xpl/xpl_imui.c:453-458 | the insert leaves the buffer holding the text with the character at the cursor |
| ImuiObject.RemoveAt | src-xpl/xpl_imui.c:485-489 | the removal leaves the buffer holding the text without the character at the position |
| ImuiObject.WaitingKeys.constructor | src-xpl/xpl_imui.c:526-527 | the queue of waiting keys starts empty |
| ImuiObject.WaitingKeys.HandleChar | src-xpl/xpl_imui.c:529-533 | input_handle_char changes the queue as Enqueue says |
| ImuiObject.Context.constructor | src-xpl/xpl_imui.c:209-245 | xpl_imui_context_new starts with no active, hot or focused control, no typed keys and an empty scroll stack |
| ImuiObject.Context.InputClear | src-xpl/xpl_imui.c:298-311 | input_clear forgets the mouse's pressed and released state, the scroll delta, the typed keys and the key presses other than delete |
| ImuiObject.Context.ControlLogicButton | src-xpl/xpl_imui.c:383-419 | control_logic_button leaves the context and the result Button describes |
| ImuiObject.Context.ButtonPress | src-xpl/xpl_imui.c:388-397 | the mouse-down half leaves the controls Press describes |
| ImuiObject.Context.ButtonRelease | src-xpl/xpl_imui.c:402-414 | the release half leaves the context and the click Release describes |
| ImuiObject.Context.GenDefaultId | src-xpl/xpl_imui.c:677-681 | control_gen_default_id counts the widget up, wrapping at 2^64, and returns (area << 16) OR widget |
| ImuiObject.Context.PushScroll | src-xpl/xpl_imui.c:509-515 | control_push_scroll, with room on the stack, pushes one frame |
| ImuiObject.Context.PopScroll | src-xpl/xpl_imui.c:517-523 | control_pop_scroll, after a push, pops one frame |
| ImuiObject.Context.KeyboardUpdate | src-xpl/xpl_imui.c:580-611 | input_keyboard_update moves every key through key_state_transition, hands the waiting keys to typed under a keyboard focus through the corrected flush, empties the queue and moves the keyboard target on Tab |
| ImuiObject.Context.TabUpdate | src-xpl/xpl_imui.c:597-609 | Tab moves the target to the next control, shift-Tab to the previous one or to control 1 |
| ImuiObject.Context.ControlLogicTextfield | src-xpl/xpl_imui.c:426-507 | the corrected control_logic_textfield leaves the buffer holding the field Textfield describes, with its cursor and changed flag |
| ImuiObject.TypeInto | src-xpl/xpl_imui.c:433-466 | the corrected loop over the typed keys leaves the buffer holding the field TypeKeys describes |
| ImuiObject.BackspaceIn | src-xpl/xpl_imui.c:479-492 | the backspace step leaves the buffer holding the corrected Backspace's field |
| ImuiObject.DeleteIn | src-xpl/xpl_imui.c:494-503 | the delete step leaves the buffer holding Delete's field |
| Es.Empty | src-xpl/xpl_es.c:69-77 | xpl_es_new starts with indexes that agree and next_id at XPL_ENTITY_NONE + 1 |
| Es.EntityNewFresh | src-xpl/xpl_es.c:111-120 | xpl_entity_new hands out an id above NONE and above every earlier one, with no components, and the indexes still agree |
| Es.EntityIdsIncrease | src-xpl/xpl_es.c:113 | ids strictly increase from one xpl_entity_new to the next |
| Es.UnregisteredLookups | src-xpl/xpl_es.c:264-278 | xpl_entity_with_component gives NONE, and xpl_component_type_id gives 0, exactly for a component that is not registered |
| Es.ByTypeOwned | src-xpl/xpl_es.c:163-175 | every entry of a by_eid table is in its entity's own component table |
| Es.ByPtrOwned | src-xpl/xpl_es.c:158-175 | every registered component is its entity's component of its type |
| Es.NoEntitiesNoComponents | src-xpl/xpl_es.c:90-96 | with every entity gone, no component is registered and every by_eid table is empty, as xpl_es_destroy asserts |
| Es.AssignDuplicateIsError | src-xpl/xpl_es.c:148-152 | the duplicate-assignment error happens exactly when the entity already has a component of the type |
| Es.AssignRegisters | src-xpl/xpl_es.c:148-178 | xpl_component_assign_type_id files a new component in all three indexes, every lookup then finds it, and the indexes still agree |
| Es.RemoveUnfiles | src-xpl/xpl_es.c:180-201 | xpl_component_remove_type_id unfiles the component from all three indexes, keeps every entity, and keeps the indexes in agreement |
| Es.RemoveUndoesAssign | src-xpl/xpl_es.c:148-201 | removing a component just assigned restores the store, except that a type seen for the first time keeps an empty by_eid table |
| Es.AllocatorSet | src-xpl/xpl_es.c:203-215 | xpl_component_allocator_for_type_id makes the type's components go to its destructor and changes no other type's |
| Es.DestroyRoutesAgree | src-xpl/xpl_es.c:226-262 | destroying a registered component through xpl_entity_component_destroy or xpl_component_destroy_with_type_id has the same effect |
| Es.StrippedStep | src-xpl/xpl_es.c:59-63 | one pass of entity_destroy's loop removes the entity's component of one type, which is still registered under it |
| Es.DisposalsStep | src-xpl/xpl_es.c:59-63 | one pass of the loop gives back one more component, by its type's destructor or by free |
| Es.DestroyEmptied | src-xpl/xpl_es.c:143-144 | destroying an entity whose components were already moved out is the same as destroying it with them |
| Es.DestroyedGivesBack | src-xpl/xpl_es.c:59-66 | destroying an entity gives back exactly the components registered under it |
| Es.DestroyedForgets | src-xpl/xpl_es.c:59-66 | after entity_destroy nothing is filed under the entity, other entities keep their components, and the indexes agree |
| Es.AdoptedStep | src-xpl/xpl_es.c:137-143 | one pass of the transfer loop assigns the component of one type to the new entity, which has none of that type yet |
| Es.AdoptedOwns | src-xpl/xpl_es.c:130-146 | after xpl_entity_transfer the new entity owns exactly the source entity's components under the same types, the destination's indexes agree and its other entities are untouched |
| EsObject.Choose | src-xpl/xpl_es.c:61 | the walk of a table visits one of its members |
| EsObject.EntitySystem.constructor | src-xpl/xpl_es.c:69-77 | xpl_es_new gives the empty store |
| EsObject.EntitySystem.EntityNew | src-xpl/xpl_es.c:111-120 | xpl_entity_new changes the store as EntityNew says and returns the new id |
| EsObject.EntitySystem.Assign | src-xpl/xpl_es.c:148-178 | xpl_component_assign_type_id reports a duplicate and files nothing, or files the component as Assigned says |
| EsObject.EntitySystem.Remove | src-xpl/xpl_es.c:180-201 | xpl_component_remove_type_id unfiles the component as Removed says and returns it |
| EsObject.EntitySystem.AllocatorFor | src-xpl/xpl_es.c:203-215 | xpl_component_allocator_for_type_id records the callbacks as AllocatorSet says |
| EsObject.EntitySystem.ComponentNew | src-xpl/xpl_es.c:253-257 | xpl_component_new_with_type_id assigns the new memory as Assign does and returns it |
| EsObject.EntitySystem.ComponentDestroy | src-xpl/xpl_es.c:226-251 | xpl_component_destroy_with_type_id gives the memory back by the type's callback and unfiles a component still registered |
| EsObject.EntitySystem.EntityComponentDestroy | src-xpl/xpl_es.c:259-262 | xpl_entity_component_destroy removes the component under its type and gives it back |
| EsObject.EntitySystem.EntityDestroy | src-xpl/xpl_es.c:59-66 | xpl_entity_destroy leaves the store Destroyed describes and gives back each component by its type's callback |
| EsObject.EntitySystem.Transfer | src-xpl/xpl_es.c:130-146 | xpl_entity_transfer returns a new entity of dest that adopts the source entity's components, and destroys the source entity |
| EsObject.EntitySystem.MoveAll | src-xpl/xpl_es.c:137-142 | the transfer loop strips every component from the source entity and files it under the new one |
| EsObject.EntitySystem.MoveOne | src-xpl/xpl_es.c:138-141 | one pass of the transfer loop moves one more type's component |
| EsObject.EntitySystem.ComponentWithType | src-xpl/xpl_es.c:328-359 | xpl_component_with_type_id returns some component of the type with its entity, or NULL and NONE when there is none |
| EsObject.EntitySystem.Destroy | src-xpl/xpl_es.c:79-109 | xpl_es_destroy gives back every registered component and empties every table |
| EsObject.ResultSet.constructor | src-xpl/xpl_es.c:280-287 | xpl_component_result_set_new starts empty with room for two results |
| EsObject.ResultSet.Grow | src-xpl/xpl_es.c:314-317 | a full set grows max_size by 2.75, truncated, keeps one slot for the sentinel, and keeps its entries |
| EsObject.ResultSet.Append | src-xpl/xpl_es.c:309-317 | one pass of the fill loop appends the entry and keeps room for the next |
| EsObject.ResultSet.ComponentsWithType | src-xpl/xpl_es.c:299-326 | xpl_components_with_type_id lists every component of the type with its entity, each once, then the NONE/NULL sentinel, and returns the count |
| EsObject.ResultSet.Fill | src-xpl/xpl_es.c:306-323 | the fill loop lists each entry of the by_eid table once and ends with the sentinel |
| TextureAtlas.Initial | src-xpl/xpl_texture_atlas.c:19-29 | the initial segment starts at column 1 on row 1 and covers width - 2 columns, a well-formed skyline inside the one-pixel border |
| TextureAtlas.MaxTop | src-xpl/xpl_texture_atlas.c:69-80 | the running y of texture_atlas_fit is at least the top of every segment walked |
| TextureAtlas.FitInsideBorder | src-xpl/xpl_texture_atlas.c:51-82 | a fit that is not -1 puts the region inside the border on both axes and on or above every segment it spans |
| TextureAtlas.FitScan | src-xpl/xpl_texture_atlas.c:51-82 | the fit loop returns -1 when the region passes the right border or the top border, and otherwise the highest top of the segments it spans |
| TextureAtlas.FitStep | src-xpl/xpl_texture_atlas.c:69-80 | one iteration raises y to the segment's top and fails exactly when y + height passes the top border |
| TextureAtlas.Fits | src-xpl/xpl_texture_atlas.c:221-226 | get_region computes one fit per segment, each the fit at that index |
| TextureAtlas.BestFrom | src-xpl/xpl_texture_atlas.c:221-236 | the candidate loop yields a segment index inside the list when it yields one |
| TextureAtlas.BestIsBest | src-xpl/xpl_texture_atlas.c:221-236 | the chosen segment fits, no fitting segment is lower or as low and narrower, it beats every fitting segment before it, and there is none exactly when no segment fits |
| TextureAtlas.ChooseNode | src-xpl/xpl_texture_atlas.c:221-236 | the candidate loop picks the segment of BestIsBest and its fit row |
| TextureAtlas.RegionInsideBorder | src-xpl/xpl_texture_atlas.c:210-244 | a region get_region finds for a non-empty request lies inside the one-pixel border |
| TextureAtlas.ShrinkSpec | src-xpl/xpl_texture_atlas.c:259-273 | cutting back the segments after the new one keeps a contiguous chain above the border and every column's height right of the new segment |
| TextureAtlas.ShrinkFollowing | src-xpl/xpl_texture_atlas.c:259-273 | the shrink loop cuts each covered segment to start after the new one and removes it when nothing is left |
| TextureAtlas.Merge | src-xpl/xpl_texture_atlas.c:84-100 | merging never lengthens the list, keeps the first segment's start and top, and leaves no two neighbours at the same top |
| TextureAtlas.MergeSpec | src-xpl/xpl_texture_atlas.c:84-100 | merging keeps a contiguous chain above the border and the height of every column |
| TextureAtlas.MergeNodes | src-xpl/xpl_texture_atlas.c:84-100 | the merge loop folds each segment into a level left neighbour and ends with the merged list |
| TextureAtlas.SplicedChain | src-xpl/xpl_texture_atlas.c:246-273 | inserting the new segment and shrinking the following ones keeps a well-formed skyline |
| TextureAtlas.SplicedHeights | src-xpl/xpl_texture_atlas.c:246-273 | after inserting and shrinking, the columns under the region are at y + height and all others keep their height |
| TextureAtlas.PlaceSpec | src-xpl/xpl_texture_atlas.c:246-275 | placing a region keeps a well-formed skyline with no level neighbours and raises exactly the columns under it to its top edge |
| TextureAtlas.PlaceNode | src-xpl/xpl_texture_atlas.c:246-275 | the update after a choice inserts the segment, shrinks the covered ones and merges |
| TextureAtlasObject.Blit | src-xpl/xpl_texture_atlas.c:303-305 | the row loop keeps the buffer length, leaves it untouched when there are no rows or the rows are empty, and marks it dirty otherwise |
| TextureAtlasObject.BlitSpec | src-xpl/xpl_texture_atlas.c:303-305 | every source row is copied into its row of the buffer and no other byte changes |
| TextureAtlasObject.PatchRows | src-xpl/xpl_texture_atlas.c:304 | row i is written at ((y + i) * width + x) * depth and read from i * stride |
| TextureAtlasObject.BlittablePatch | src-xpl/xpl_texture_atlas.c:282-287 | a region that passes set_region's asserts copies only inside the buffer and the source |
| TextureAtlasObject.ChosenSegment | src-xpl/xpl_texture_atlas.c:238-254 | the chosen segment starts inside the border, its region is the one returned, and placing it keeps the skyline |
| TextureAtlasObject.CopyRows | src-xpl/xpl_texture_atlas.c:303-305 | the row loop leaves the buffer equal to Blit of the old buffer over all region rows |
| TextureAtlasObject.Atlas.constructor | src-xpl/xpl_texture_atlas.c:102-129 | a new atlas has the initial segment, nothing used, no texture and a zeroed buffer of width * height * depth bytes |
| TextureAtlasObject.Atlas.GetRegion | src-xpl/xpl_texture_atlas.c:210-278 | the returned region is the best fit on the old skyline; with no fit nothing changes, otherwise the skyline is placed and used grows by width * height |
| TextureAtlasObject.Atlas.SetRegion | src-xpl/xpl_texture_atlas.c:280-306 | the buffer becomes the old buffer with each source row copied into the region |
| TextureAtlasObject.Atlas.Commit | src-xpl/xpl_texture_atlas.c:154-207 | afterwards a texture exists, holds the buffer's data and the buffer is clean; the data, skyline, used count and the atlas dimensions do not change |
| TextureAtlasObject.Atlas.Clear | src-xpl/xpl_texture_atlas.c:308-322 | clearing restores the initial segment, zero used and a fresh zeroed buffer, and keeps the dimensions and the texture |

## Left out

- OpenGL calls are not modelled. This covers buffer and texture uploads, VAOs, shaders and drawing. A commit or texture upload is modelled as copying the client bytes into a sequence that stands for the GPU copy.
- Fonts, glyph metrics, text markup rendering, and the drawing and layout parts of the immediate-mode UI are not modelled. They wrap FreeType and the renderer.
- Floating-point arithmetic is modelled on reals, without IEEE rounding. This affects engine timings, particle lives, `rng_double` and bin selection, and OBJ vectors.
- Polygon vertex positions and normals are not modelled. Only the layout of the emitted corners is, which is enough for the vertex-count assertion.
- Uthash's hash functions are parameters of the model (`xpl_hashi`, `xpl_hashs`, the text-cache key hash), and so is its iteration order. Where the C code iterates a table, the model picks an element with `EsObject.Choose`.
- Audio, sockets, threads, timers, sleeping and the engine's INI settings are not part of this model.
- File-system effects are recorded, not performed. `Dir.glob` expansion, `File.exist?`, file copies and the external encoder are parameters: a snapshot of the file system, and a list of actions.
- Printing in the Ruby scripts and the C logging calls are not modelled.
- Ruby's `const_get` of constants other than the three transformers is not modelled. Any other name aborts the argument parse.
- The plist and header rewriters interpolate keys into regular expressions. The model matches keys as plain text, which assumes the keys hold no regular-expression metacharacters.
- Environment variables read by the version scripts are parameters.
- `downcase` is modelled for ASCII letters only.
- `process_r` in `resource_processor.rb` calls `each` on a String, which under Ruby 1.8 yields its lines. A path has one line, so the model dispatches the file itself.
- `dsym_plist_filename` in `plist_version_update.rb` is computed but never used, so it is not modelled.
- `xpl_md5_digest_file` and `xpl_md5_digest_string` are not modelled. They only read a file or a C string and feed it to update and finish, which are.
- `rng_float`, `rng_pareto`, the ranged double and float fills, vector and quaternion draws from `det_rng.c` are not modelled: they are floating-point wrappers around `rng_ui64`.
- The second copy of `camera_calculate_center` in `context_game.c` (lines 245-274) is not modelled separately; `camera.c`'s version is.
- `result_set_destroy` only frees memory and is not modelled. `xpl_only_entity_with_component_type_id` is covered by `EsObject.EntitySystem.ComponentWithType`.
- Entity ids are unbounded integers, so the model has no wrap-around of `next_id`.
- EsObject.EntitySystem.Transfer requires distinct source and destination systems. Transferring within one system, which the C code allows, is not modelled.
- The `rgba` helper of `xpl_command_render.c` shifts alpha, promoted to a signed `int`, into bit 31. The model packs into an unsigned 32-bit word, so the sign-bit overflow for alpha of 128 or more is not modelled.
- ModelLoader.ParseVertexIndex requires at most `MAX_VERTEX_COUNT` tokens per face. The C code does not check that bound, and writes past its index arrays on a longer face.
- ModelLoader.ObjModel.ParseFace carries the same bound.
- ModelLoader.ObjModel.ParseFace requires every token of the face to name a positive vertex, texture and normal index, because `wf_convert_index` asserts `index > 0` on all three (`xpl_model_loader.c:229`). Faces written as "v", "v/t" or "v//n" leave an index at 0 and fail that assert, as ModelLoader.PartialFacesAssert shows, so the C loader cannot load an OBJ file without texture coordinates or normals. The model does not describe that failure; it describes only faces that pass the assert.
- ModelLoader.ObjModel.LoadLine carries the same restriction on "f" lines.
- `mtllib` is not modelled: it resolves a file-name buffer that is never filled in and loads a material library from disk.
- ModelLoader.ObjModel.LoadLine keeps the current material on a `usemtl` line with no name. The C code passes a null name to `wf_find_material` there.
- Menu.MenuStack.Push requires room on the stack. `menu_push` does not check that bound in the C code.
- `PLAYFIELD_MAX` is a parameter of `position_mod`.
- DynamicBufferObject.Buffer.Delete requires the deleted range to lie within the length. The C code asserts only that it lies within the capacity.
- ContextGameObject.Projectiles.WithPid leaves the slots unchanged when no slot is free. The C code then initialises index -1, writing before the array; that write is not modelled.
- TextConsole: the tab padding of `text_buffer_add_text_inner` is not NUL-terminated in the C code, which is not modelled.
- `get_defines` in `header_version_update.rb` returns an array that ends at the last key it found. VersionDefines.GetDefines pads it with `None` to the key list's length, as the script's multiple assignment reads it.
- VersionDefines.TextFile.Write takes `f.write(array)` in `build_success.rb` and the update scripts to write the array's lines joined together. That is Ruby 1.8's `Array#to_s`; later Rubies write the array's `inspect` form instead, which is not modelled.
- TextConsole.Buffered copies one byte per cell, taking `wctomb` to produce a single byte for every character in the grid. Multi-byte encodings are not modelled.
- Md5.Update requires the input to be shorter than 2^32 bytes. `xpl_md5_update` casts the length to `uint32_t` when it adds to the bit count (`xpl_hash_md5.c:283-286`), so a longer input would be miscounted; that case is not modelled.
- Platform.CreateGenericPath requires, where the OS separator differs from '/', a path shorter than `length`. A longer one leaves strncpy's copy without a NUL, and `str_replace` then reads past the buffer, which is not modelled.
- MathUtil.NextPowerOfTwoAsWritten requires a value below 2^31. Larger values shift by 32 bits, which is undefined in C and not modelled.
- Memory.MemoryCompareAsWritten requires non-empty ranges. With `compare_bytes` of 0 the C code still reads one byte of each range, which is not modelled.
- DetRngObject.RngSeq.SelectFromBins requires at least one bin. With none, `bin_count - 1` wraps as a `size_t` and the loop reads past the bins, which is not modelled.
- The second `position_in_bounds` in `context_game.c` (lines 1442-1453) is not modelled separately. It differs from the `util.h` version, which GameUtil.InBoundsIsBox models, only in widening to `long` instead of `int64_t`. Where `long` has 64 bits the two compute the same; a 32-bit `long`, which would mix signed and unsigned comparisons, is not modelled.

## Findings

| source | as written | input that shows it | evidently intended | confidence | as-written member | corrected member |
|---|---|---|---|---|---|---|
| src-xpl/xpl_imui.c:481-483 | backspace with the cursor at the end writes a NUL at `cursor - 1` and decrements the cursor, even when the field is empty | backspace in an empty field writes `buffer[-1]` | an empty field is left alone | not executed | Imui.BackspaceAsWritten, Imui.BackspaceOnEmptyField | Imui.Backspace |
| src-xpl/xpl_imui.c:453-458 | inserting in the middle builds the new text and its NUL, `len + 2` bytes, in a scratch array of `max_len` chars | typing the key XPL_KEY_SPECIAL + 'b', whose low byte is 'b', before "a" in a field of max_len 2 writes 3 bytes into a 2-byte array | the scratch array holds the text, the new char and the NUL | not executed | Imui.TypeKeyAsWritten, Imui.InsertNearFullOverruns | Imui.TypeKey |
| src-xpl/xpl_imui.c:591-594 | the waiting keys are copied into `typed` and terminated at `typed[count]` | eight waiting keys under a keyboard focus write the terminator at `typed[8]`, past the array | the terminator stays inside `typed` | not executed | Imui.FlushAsWritten, Imui.FullQueueOverrunsTyped | Imui.Flush |
| src-xpl/xpl_input.c:30-32 | a key is a character when it is above `XPL_KEY_SPECIAL` | 'a' is not a character and the key 38 above `XPL_KEY_SPECIAL` is | printable keys, below `XPL_KEY_SPECIAL`, are characters | not executed | Input.IsCharacterAsWritten, Input.LetterIsNotACharacterAsWritten | Input.IsCharacter |
| src/random/det_rng.c:72 | the byte index is `rng_double * set_len`, and `rng_double` reaches 1.0 on the largest output | from state 0x8080c0c09f60b0b0 the next output is UINT64_MAX and the index is `set_len` | the index stays below `set_len` | not executed | DetRng.BytesAsWritten, DetRng.DrawPastSet | DetRng.Bytes, DetRng.BytesFromSet |
| src/random/det_rng.c:80 | `rng_string` draws from `sizeof` the character set, which counts its terminating NUL | from state 0xe414a5de6cefcd7c the one-character string is a NUL | only the set's printable characters are drawn | not executed | DetRng.StringAsWritten, DetRng.StringCanEndEarly | DetRng.String |
| src-xpl/xpl_memory.c:146-152 | the offsets are computed from cursors already moved past the differing byte | comparing [1] with [0] reports first offset 1 and last offset ~0 | both offsets are 0 | not executed | Memory.MemoryCompareAsWritten, Memory.OneByteDifference | Memory.MemoryCompare |
| src-xpl/xpl_dynamic_buffer.c:84-86 | insert grows the allocation but does not record the new capacity | append [1, 2], insert 9 at 0, append 3 leaves [9, 1, 0, 3] | the data is [9, 1, 2, 3] | not executed | DynamicBuffer.InsertAsWritten, DynamicBuffer.InsertThenAppendLosesData | DynamicBuffer.Insert, DynamicBuffer.InsertThenAppendKeepsData |
| src-xpl/xpl_dynamic_buffer.c:113-115 | delete moves `length - data_len` bytes from `delete_offset + data_len` | deleting one byte at offset 2 of a full 4-byte buffer reads bytes 3 to 5 | only the `length - delete_offset - data_len` bytes after the range move | not executed | DynamicBuffer.DeleteAsWritten, DynamicBuffer.DeleteOverrun | DynamicBuffer.Delete |
| src-xpl/xpl_bo.c:75-78 | the partial upload sends bytes from the start of the client content to the dirty offset | append [1, 2, 3, 4], commit, write 9 at offset 2, commit: the server holds [1, 2, 1, 4] | the server holds [1, 2, 9, 4] | not executed | BufferObjectState.CommitAsWritten, BufferObjectState.PartialUploadFromWrongSource | BufferObjectState.Commit, BufferObjectState.CommitSynchronises |
| src-xpl/xpl_bo.c:105-121 | insert and alloc only mark a clean object for partial update, though they grow it | after committing [1, 2], inserting 9 at 0 and committing leaves the server at [1, 2] | a growing change recreates the server buffer | not executed | BufferObjectState.InsertAsWritten, BufferObjectState.GrowingUpdateIsLost | BufferObjectState.Insert, BufferObjectState.GrowingInsertIsKept |
| src/text/text_buffer.c:434-435 | delete moves the input's end back by one even with the cursor at the end | input "ab" with the cursor after 'b': the end moves before the cursor | delete at the end changes nothing | not executed | TextConsole.DeleteAsWritten, TextConsole.DeleteAtEndLeavesInput | TextConsole.Delete |
| src/text/text_buffer.c:417 | typing shifts the input right and writes one cell past the input's end without checking the grid's end | input "ab" ending two cells before the end of a 4-cell grid: typing 'c' writes past the grid | the input becomes "abc" inside the grid | not executed | TextConsole.InsertAsWritten, TextConsole.InsertNearEndOverruns | TextConsole.Insert |
| include-xpl/xpl_math.h:110-115 | the power-of-two test `val & !(val & (val - 1))` only holds for 1 | 4 becomes 8 | a power of two is returned unchanged | not executed | MathUtil.NextPowerOfTwoAsWritten, MathUtil.FourBecomesEight | MathUtil.NextPowerOfTwo |
| src/game/camera.c:27-28 | the right-edge clamp subtracts the overshoot from the centre's y | centre x = UINT32_MAX with a 100 x 100 draw area: y moves down by 50 and max.px is 49 | the overshoot is taken off x | not executed | CameraObject.Camera.CalculateCenterAsWritten, Camera.RightEdgeMovesY | CameraObject.Camera.CalculateCenter |
| src-xpl/xpl_engine_info.c:80-97 | the interpolation total is not zeroed before the samples are summed | one all-zero sample over a stale interpolation time of 1 averages to 1 | the average is 0 | not executed | EngineInfo.AverageTimesAsWritten, EngineInfo.StaleInterpolation | EngineInfo.AverageTimes |
| src/context/context_game.c:1218-1219 | the least-life scan records `min_index = 0` instead of the current slot | every particle alive and slot 1 shorter-lived than slot 0: slot 0 is recycled | the particle with the least life left is recycled | not executed | ContextGameObject.ParticlePool.FindNewAsWritten, ContextGame.ParticleFindNewIgnoresLeast | ContextGameObject.ParticlePool.FindNew, ContextGame.FindNewChoosesWell |
| src/context/context_game.c:886-887 | the empty-line tests compare an array with 0, which never holds | a message added to the empty log lands on line 2 | the log fills from line 0 | not executed | ContextGame.AddedAsWritten, ContextGame.FirstMessageGoesLast | ContextGame.Added, ContextGame.AddedKeepsLines |
| build/scripts/resource_processor.rb:113-126 | `next_as_transformer` is never reset, so every argument after `-t` is read as a transformer list | `out -t "WAV2AAC, Copy" music/theme.wav` aborts | arguments after the list are inputs | not executed | ResourceProcessor.ArgumentsAsWritten, ResourceProcessor.InputAfterListAborts | ResourceProcessor.Arguments, ResourceProcessor.ListThenInputs |
| build/scripts/plist_version_update.rb:40 | the rewritten line is assigned back to `new_value`, so the next matching key inserts that whole line as its value | an Info.plist naming the key twice: the second value becomes the whole first rewritten line | both value lines get the new value | not executed | PlistVersion.DuplicateKeyAsWritten | PlistVersion.ReplacePlistValue, PlistVersion.DuplicateKeyCorrected |
