# tini in Dafny

A model of tini, a tiny parser for an INI-like configuration format, written
in C (`tini.c`, `tini.h`). The file is read line by line, and each line is one of:

- ignored: blank, or its first non-blank character is `#`;
- a section header: `[name]`;
- a key/value pair: `key = value`, split at the first three-character
  separator `" = "`.

The parser either builds a document, which is a list of sections each holding
a list of pairs, or reports each header and pair to a handler.

The model has six parts. It follows the C code's own structure.

- `tini_h.dfy` (module `TiniTypes`) holds the constants and record layouts of
  `tini.h`. These are the line buffer size 512, the three `TINI_FLAG_*` codes,
  the pair and section values, and the token and position results of the
  tokenizer. It also holds the error kinds that replace each fatal `err()` of
  the C code.
- `text.dfy` (module `Text`) has one function per pointer loop or library
  call of the tokenizer:
  - skipping leading blanks;
  - the `]` scan;
  - `strstr` for the separator;
  - the tail scan.

  Each comes with lemmas that characterise it. `TrimRight` is an independent
  reference definition of "the value without its trailing blanks".
- `tokenizer.dfy` (module `Tokenizer`) models `tini_parse_one`.
  - `Scan` is its specification in the C code's own terms: the positions of
    the section name, key and value in the line, where the C code's `s`, `k`
    and `v` pointers point and where it writes its `'\0'` terminators.
  - `ParseOne` walks indices over an `array<char>` line buffer as the C code
    walks its pointer. It is proved equal to `Scan`.
  - `Classify` reads the texts at those positions.
  - The lemmas state the format's rules in terms of the line, in both directions.
- `store.dfy` (module `Store`) holds the document.
  - The classes `Sect` and `Base` have the count fields and entry arrays of
    `struct tini_sect` and `struct tini_base`. Each array is a sequence field.
  - `Valid()` ties each count to its array.
  - The methods are `tini_new`, `tini_new_sect`, `tini_new_kv`,
    `tini_get_sect` and `tini_free`. `tini_get_sect` is the C loop, proved
    against the pure first-match lookup `FindSection`.
- `driver.dfy` (module `Driver`) models `tini_parse_core`, `tini_parse` and
  `tini_parse_cb`.
  - The input is the file's contents, cut into chunks as
    `fgets(linebuf, 512, fp)` cuts it.
  - `RunFrom` is the specification: a fold of `Step` over the chunks.
  - `ParseCore` is the C loop over the line buffer, the tokenizer and the
    mutable document. It is proved to end as `Run` does, with the same
    document and the same handler calls.
  - Callback mode is modelled as the sequence of handler calls (`Event`s) it makes.
  - `Parse` and `ParseCb` take a flag for whether `base0`, or `handler`, is
    non-NULL. With NULL, `tini_parse_core` runs in neither mode: it only reads
    and tokenizes the lines, builds nothing and calls nothing, so a pair before
    any header is accepted. That is `ParseCore(input, false, false)`.
  - `HandlerSeesDocument` proves that on an input both accept, the handler
    calls of `tini_parse_cb` report exactly the document `tini_parse` builds.
- `scenarios.dfy` (module `Scenarios`) applies the format's rules to concrete lines.

Three behaviours of the code that a reader might not expect, all modelled
as the code has them:

- The separator is the three characters `" = "` (tini.c:10). The value keeps
  the spaces that follow the separator; only trailing spaces, tabs and
  newlines are removed (tini.c:183-201). `"k =   v \n"` gives the value `"  v"`.
- A key keeps a space that precedes the separator: `"key  = v"` gives the
  key `"key "`.
- A `[` that no `]` closes is not a header error. The key scan starts at the
  end of the string, which holds no separator, so the line fails with the
  missing-separator error (tini.c:162-180).

## Model

| member | source | states |
|---|---|---|
| TiniTypes.Flag | tini.h:4-6 | each token kind maps to its own `TINI_FLAG_*` code, and each code identifies its kind: ignore 0, section 1, key/value 2 |
| Text.SkipBlanks | tini.c:146-147 | the head scan stops within the line, on a character that is neither space nor tab, or at the end |
| Text.SkipBlanksSpec | tini.c:146-147 | every character the head scan passes over is a space or a tab |
| Text.SkipBlanksUnique | tini.c:146-147 | the head scan stops at the first non-blank character after its start, whatever precedes it |
| Text.IndexOf | tini.c:163-171 | the `]` scan, when it finds something, finds a `]` at or after its start |
| Text.IndexOfSpec | tini.c:163-171 | no `]` lies before the one found, and none at all when the scan reaches the string's end |
| Text.IndexOfFirst | tini.c:163-171 | the first `]` after the start is the one the scan returns |
| Text.FindSep | tini.c:176 | `strstr(bp, " = ")` finds a separator at or after the key's start when it finds one |
| Text.FindSepSpec | tini.c:176 | no separator starts before the one found, and none at all when `strstr` returns NULL |
| Text.FindSepFirst | tini.c:176 | the first separator after the start is the one `strstr` returns |
| Text.TrimEnd | tini.c:187-190 | the tail scan moves back only, and stops after a character that is not a space, tab or newline, or at the start |
| Text.TrimEndSpec | tini.c:187-190 | every character the tail scan walks over is a space, tab or newline |
| Text.TrimEndUnique | tini.c:187-190 | the tail scan is determined by the index it should stop at |
| Text.TrimEndSlice | tini.c:186-201 | the tail scan cut at the value's start yields exactly the reference trim of the value |
| Text.TrimRightSpec | tini.c:186-201 | the trimmed value is a prefix of the raw value, is empty or ends in a character that is not space, tab or newline, and only such characters were removed |
| Text.TrimRightUnique | tini.c:186-201 | the trim is the unique prefix with those properties |
| Text.AllTrailingTrimsToEmpty | tini.c:191-200 | a value of blanks only trims to the empty string |
| Text.TrimRightAt | tini.c:186-201 | the trim of a line's suffix is the slice up to the index the tail scan reaches |
| Tokenizer.Scan | tini.c:140-204 | every cut lies within the line in order (name, or key, separator, value), and every error carries the line's number |
| Tokenizer.ScanPair | tini.c:174-203 | a key/value cut starts its key where the scan stood, lies within the line, and errors carry the line number |
| Tokenizer.TokenOf | tini.c:148-203 | the token read at a cut is ignored or a section exactly when the cut is |
| Tokenizer.SkipHead | tini.c:146-147 | the pointer loop over the buffer stops where `SkipBlanks` does |
| Tokenizer.ScanClose | tini.c:163-171 | the `]` loop over the buffer returns what `IndexOf` returns |
| Tokenizer.ScanSep | tini.c:176 | the separator search over the buffer returns what `FindSep` returns |
| Tokenizer.TrimTail | tini.c:186-201 | the backward loop from the terminator, and the empty-value test `bp + 2 == *v`, end the value where `TrimEnd` stops, or at its start when only blanks follow the separator |
| Tokenizer.SplitPair | tini.c:174-203 | the key/value part over the buffer returns what `ScanPair` returns, errors included |
| Tokenizer.ParseOne | tini.c:140-204 | `tini_parse_one` over the line buffer returns exactly `Scan` of the buffer's contents |
| Tokenizer.ScanIgnore | tini.c:146-159 | a line is ignored if and only if its first non-blank character is a newline or `#` |
| Tokenizer.ScanSectionSound | tini.c:162-170 | a header cut starts after a first non-blank `[` and ends at the first `]` after it |
| Tokenizer.ScanSectionComplete | tini.c:162-170 | conversely, such positions are the line's header cut |
| Tokenizer.ScanPairSound | tini.c:174-203 | a key/value cut has the positions the format prescribes. The key starts at the first non-blank character, which is not a newline, `#` or `[`. The key runs to the first separator and is non-empty. The value starts right after the separator and ends where only trailing blanks follow, or is empty |
| Tokenizer.ScanPairComplete | tini.c:174-203 | conversely, positions of that shape are the line's key/value cut |
| Tokenizer.UnclosedSection | tini.c:162-180 | a `[` that no `]` follows gives the missing-separator error |
| Tokenizer.MissingSeparator | tini.c:176-180 | a line that is neither ignored nor a header and holds no separator gives the missing-separator error with its line number |
| Tokenizer.TerminatedLineErrors | tini.c:146-180 | on a newline-terminated line the no-EOL and separator-at-start errors cannot happen; the only error is the missing separator |
| Tokenizer.ClassifyIgnore | tini.c:146-159 | the token is Ignore if and only if the first non-blank character is a newline or `#` |
| Tokenizer.SkipOver | tini.c:146-147 | skipping the head of blanks followed by a non-blank character stops right after the blanks |
| Tokenizer.SectionSound | tini.c:162-170 | a Section token's name is the text strictly between the first non-blank `[` and the first `]` after it, and holds no `]` |
| Tokenizer.SectionLine | tini.c:162-170 | conversely, blanks, `[`, a name without `]`, `]` and anything else form a header with that name |
| Tokenizer.ClassifyKeyValue | tini.c:174-203 | for a KeyValue token, key ++ `" = "` ++ raw value is the line after its leading blanks. The split is at the first separator, the key is non-empty and starts with a non-blank character other than `#` and `[`, and the value is the raw value trimmed |
| Tokenizer.PairTexts | tini.c:174-203 | the texts at a key/value cut are the key up to the first separator and the trimmed rest of the line |
| Tokenizer.KeyValueLine | tini.c:174-203 | conversely, blanks, a key with no separator inside, `" = "` and a raw value form a pair with that key and the raw value trimmed |
| Tokenizer.ClassifyPair | tini.c:174-203 | a line with key/value positions classifies as the pair of the texts there |
| Tokenizer.PartsPositions | tini.c:175-201 | blanks, key, separator and raw value lie at the positions a key/value cut prescribes |
| Tokenizer.KeyPositions | tini.c:175-180 | the key of such a line starts after the blanks and ends at the first separator |
| Tokenizer.ValuePositions | tini.c:183-201 | the value of such a line ends where the reference trim of the raw value ends |
| Store.FindFrom | tini.c:132-135 | a section found from index i on lies at or after i and has the queried name |
| Store.FindSection | tini.c:124-138 | a section found lies in the document and has the queried name |
| Store.FindFromSpec | tini.c:132-135 | the scan from i finds the first section with that name from i on, or none because none has it |
| Store.FindSectionSpec | tini.c:124-138 | lookup answers with the first section, in insertion order, whose name equals the query exactly, or with nothing when none does |
| Store.FindSectionFirst | tini.c:124-138 | conversely, the first index holding the name is the lookup's answer |
| Store.FindSectionAppend | tini.c:97-138 | appending a section never changes an existing answer; it is found only when its name is new |
| Store.FindSectionEmpty | tini.c:129-130 | the empty document answers nothing |
| Store.Sect.constructor | tini.c:111-116 | a new section holds a copy of the name, zero pairs and a count of zero |
| Store.Sect.NewKv | tini.c:68-95 | the pair count grows by one, the pair goes last, the name and earlier pairs are unchanged, and the count still equals the number of pairs |
| Store.Base.constructor | tini.c:56-66 | a new document is zeroed: no sections and a count of zero |
| Store.Base.NewSect | tini.c:97-122 | the section count grows by one, a fresh empty section with the name goes last, and earlier sections are unchanged |
| Store.Base.GetSect | tini.c:124-138 | the linear scan returns the section `FindSection` designates, or null when no name matches |
| Store.Base.Free | tini.c:39-54 | the document is reset to zero sections, after which every lookup finds nothing |
| Driver.ChunkEndFrom | tini.c:241 | the read continues from where it stands, within the input and at most 511 characters from the chunk's start |
| Driver.ChunkEnd | tini.c:241 | each chunk is non-empty and holds at most `LineSize - 1` = 511 characters |
| Driver.ChunkEndFromSpec | tini.c:241 | the read stops at the first newline, at 511 characters, or at the end of input |
| Driver.ChunkSpec | tini.c:241-245 | a chunk holds no newline before its last character, and ends in a newline, holds 511 characters, or ends the input |
| Driver.ChunksCover | tini.c:241-243 | the chunks put together are exactly the input, none empty and none longer than 511 characters |
| Driver.AppendPair | tini.c:266-271 | a pair goes to the end of the last section: the other sections and the last section's name are unchanged |
| Driver.ReadLineTooLong | tini.c:241-246 | a line is rejected as too long if and only if no newline lies within 511 characters of its start. This covers an overlong line and a last line with no newline. Any other error is the missing separator |
| Driver.AcceptedLines | tini.c:241-245 | in an accepted input every chunk is a whole line of at most 511 characters ending in its newline |
| Driver.StepModes | tini.c:257-278 | one line affects the build-only, callback-only and combined runs alike, and fails them all with the same error |
| Driver.ModesAgreeFrom | tini.c:210-285 | the build-only, callback-only and combined runs from any point succeed or fail together with the same error |
| Driver.ModesAgree | tini.c:313-324 | `tini_parse` and `tini_parse_cb` accept the same inputs and report the same error. A run in both modes builds the first's document and makes the second's handler calls |
| Driver.HeaderLookup | tini.c:259-261 | a header always appends a new empty section, even under a name already used; lookup still finds the first |
| Driver.PairLookup | tini.c:266-271 | a pair line changes no lookup answer |
| Driver.PairBeforeHeader | tini.c:266-269 | in build mode a pair before any header is the section-not-defined error for its line |
| Driver.UnusedModes | tini.c:257-276 | a mode that is off leaves its part of the state untouched: with no handler no call is made, with no base nothing is built |
| Driver.StepReports | tini.c:257-276 | one line keeps the handler calls in step with the document: a header call for each section, then a call for each of its pairs, with the current section the last one |
| Driver.RunReports | tini.c:240-278 | the same holds at the end of any successful run in both modes |
| Driver.HandlerSeesDocument | tini.c:313-324 | on an input `tini_parse` accepts, `tini_parse_cb` accepts it too and reports, in file order, each section's header followed by its pairs, exactly as the document holds them |
| Driver.IgnoredLine | tini.c:257-258 | a blank or comment line leaves the document, the current section name and the handler calls unchanged |
| Driver.Fgets | tini.c:241 | the chunk copied into the buffer is exactly the input up to where `fgets` stops |
| Driver.NextLine | tini.c:241-246 | read, too-long check, tokenizer and the texts at the token's positions together give exactly `ReadLine` |
| Driver.Build | tini.c:257-271 | the build-mode dispatch turns the document into `BuildStep`'s, or reports its error, and keeps `section` pointing at the last section |
| Driver.AddPair | tini.c:270 | `tini_new_kv` on the last section appends the pair to the document's last section |
| Driver.ParseCore | tini.c:210-285 | the loop, with its build-mode and callback-mode dispatch, fails with exactly `Run`'s error, or passes with `Run`'s document (build mode) and handler calls (callback mode) |
| Driver.Parse | tini.c:313-317 | `tini_parse` allocates a document exactly when `base0` is given, and passes with the document of the build-only run, or fails with its error; with a NULL `base0` it runs in neither mode |
| Driver.ParseCb | tini.c:319-324 | `tini_parse_cb` passes with the handler calls of the callback-only run, or fails with its error; with a NULL handler it makes no call |
| Scenarios.OmittedSpace | tini.c:25-27 | `"key =value"` is the missing-separator error |
| Scenarios.LeadingSpacesKept | tini.c:183-201 | `"k =   v "` gives the value `"  v"` |
| Scenarios.BlankValue | tini.c:191-200 | an all-blank value is the empty string, not an error |
| Scenarios.KeyKeepsSpace | tini.c:175-183 | `"key  = v"` gives the key `"key "` |
| Scenarios.UnclosedHeader | tini.c:162-180 | `" [a"` is the missing-separator error |
| Scenarios.Header | tini.c:162-170 | `"\t[a]x"` is the header `a` |

## Left out

- File I/O:
  - `fopen` and `fclose` are not modelled. The file's contents are the `input` parameter and `fgets` is a read from it.
  - The read-error check after the loop (`!feof(fp)`, tini.c:280-281) cannot fail on a string.
- Allocation failures of `calloc`, `malloc`, `realloc` and `strdup` are not modelled; allocation always succeeds. Process termination by `err`/`errx` becomes an `Error` result or a `Fail` outcome.
- Memory reclamation in `tini_free`: the loop only frees memory, and it leaks the pair structs and the pointer arrays. Only the reset to an empty document is modelled.
- The debug output (tini.c:31-33, 247-256) and `tini_print`, `tini_print_sect` and `tini_print_kv` are only `printf` output.
- `test_tini.c` is not part of this model.
- The handler is a function pointer into code that is not part of this model. Each call is recorded as an `Event`. Its return value, which the C code ignores, is not modelled.
- `section_name` in callback mode points into the line buffer, which the next `fgets` overwrites. Later handler calls would therefore see the text of the current line at that address. The model reports the intended value, the name of the last header.
- Tokenizer.ParseOne and Driver.NextLine do not model the C code's writes of `'\0'` into the line buffer. They return the positions where those writes go, and the texts between them; the buffer is read, not changed.
- NUL characters in the input are treated as ordinary characters, and the model tokenizes a line that holds one (`"a\0 = b\n"` is a pair). In C, `strlen` stops at the NUL, and the character before it cannot be the newline, because `fgets` ends a chunk at its newline. So the C code rejects every line holding a NUL as too long (tini.c:242-245), and a chunk that starts with NUL makes `linebuf[len - 1]` read before the buffer.
- The counters `n_sect`, `n_kv` and `lineno` are C `int`s and are modelled as unbounded integers; overflow after 2^31 entries or lines is not modelled.
- Driver.ParseCore: when it fails, its contract says nothing about the document built so far. The C process has exited at that point.
