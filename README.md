# A1111 prompts-from-file generator, modelled in Dafny

The program builds text prompts for the AUTOMATIC1111 image generator's
"prompts from file" script. It has ten categories: Subject, FacialExpression,
Clothing, Situation, Medium, Style, AdditionalDetails, Color, Lighting and
Remarks. Each category keeps its options in a word-list file `<Category>.txt`
in the data directory. A run does five things:

1. It finds each category's file. The lookup ignores case.
2. It loads each file's stripped, non-blank lines.
3. It stops if any category has no options.
4. Otherwise it builds 100 prompts. Each prompt takes one option from each
   category, in category order, and joins them with `", "`.
5. It writes each prompt into a fixed command-line template, one line per
   prompt. The output file gets a name that is free in the working
   directory: `generated_prompts.txt`, or `generated_prompts2.txt`,
   `generated_prompts3.txt`, and so on.

The model has three modules:

- `Wrappers` (`wrappers.dfy`): the `Option` type, which stands for Python's
  "`None` or a value".
- `PyStr` (`pystr.dfy`): the Python built-ins the program relies on, written
  out as functions:
  - `str.strip` (`Strip`), using Python's full whitespace set;
  - `str.lower` (`Lower`);
  - `", ".join` (`Join`) and its inverse `str.split` (`Split`);
  - `str(n)` (`NatToString`) with its inverse `ParseNat`;
  - `os.path.splitext` (`SplitExt`);
  - reading a file line by line in text mode (`UniversalNewlines`,
    `SplitLines`).
- `PromptGenerator` (`prompt_generator.dfy`): main.py itself.

The environment is modelled like this:

- The data directory is a `DataDir` value. It holds whether the directory
  exists, the `os.listdir` order, and the decoded text of each readable entry.
- The existing files are a finite `set<string>`.
- `random.choice` is a caller-supplied `Pick`. It gives an index for each
  (prompt, category, list length) and must stay within the list.
- The output file is the returned sequence of lines.

The loops in `main` become methods with loop invariants:

- `LoadAll`: the loop that loads the options.
- `FirstUnstocked`: the check that every category has options.
- `Generate`: the nested loop that writes the prompts.
- `Run`: composes the three. `RunMain` calls `Run` with the program's fixed
  category list.

`find_case_insensitive_file` and `get_unique_filename` are loops too, and so
are methods. Each method is proved against a specification function
(`FirstMatch`, `IsUniqueName`, `Choices`, `CategoryOptions`), and the lemmas
are proved about those functions.

The category list is a parameter of `Run`, not the constant, because
reasoning about the ten-string literal is far more expensive for the solver
than reasoning about an arbitrary list. `RunMain` gives the constant to `Run`.

## Model

| member | source | states |
|---|---|---|
| `PromptGenerator.NonEmpty` | main.py:33 | the filter `part for part in parts if part`: no more elements than the input, no empty element, and a string is kept exactly when it is a non-empty element of the input |
| `PromptGenerator.NonEmptyIsSubsequence` | main.py:33 | the kept parts appear in their original order (a subsequence of the input) |
| `PromptGenerator.NonEmptyCounts` | main.py:33 | every non-empty part is kept as many times as it occurs, and the empty string never is |
| `PromptGenerator.NonEmptyOfNonEmpty` | main.py:33 | a list without empty parts passes the filter unchanged |
| `PromptGenerator.BuildPrompt` | main.py:31-33 | `build_prompt` returns `""` exactly when every part is empty, in both directions |
| `PromptGenerator.BuildPromptSplits` | main.py:31-33 | if no part holds a comma and some part is non-empty, splitting the prompt at `", "` gives back exactly the non-empty parts in order, so no empty fragment sits between separators |
| `PyStr.Join` | main.py:33 | `", ".join` of non-empty pieces is empty exactly when there are no pieces |
| `PyStr.SplitJoin` | main.py:33 | `split` inverts `join` when no piece holds the separator's first character |
| `PyStr.SplitAfterPiece` | main.py:33 | splitting `a + sep + t` peels off `a` first when `a` cannot start a separator |
| `PyStr.SplitWithoutSeparator` | main.py:33 | a piece without the separator's first character splits into itself |
| `PromptGenerator.FirstMatch` | main.py:40-44 | it returns nothing exactly when no entry's lower-case form equals the key; otherwise it returns an entry at some index whose lower-case form equals the key, and no earlier entry matches (the first match in listing order) |
| `PromptGenerator.FindCaseInsensitiveFile` | main.py:35-44 | it returns `None` when the data directory does not exist; otherwise it returns the first listed entry equal to the target up to case, or `None`; the loop is proved against `FirstMatch` |
| `PyStr.Lower` | main.py:40-42 | `lower()` keeps the length, maps each character on its own, and leaves no upper-case ASCII letter |
| `PyStr.LowerIdempotent` | main.py:40-42 | lower-casing twice is lower-casing once |
| `PyStr.TrimLeft` | main.py:50 | the left trim is a suffix of the input; everything it drops is whitespace; it starts with a non-space character or is empty |
| `PyStr.TrimRight` | main.py:50 | the right trim is a prefix of the input; everything it drops is whitespace; it ends with a non-space character or is empty |
| `PyStr.Strip` | main.py:50 | `strip()` is no longer than its input and begins and ends with a non-space character unless it is empty |
| `PyStr.StripIsMiddle` | main.py:50 | `strip()` is a contiguous middle part of its input, and everything outside that part is whitespace |
| `PyStr.StripIdempotent` | main.py:50 | stripping a stripped line changes nothing |
| `PyStr.UniversalNewlines` | main.py:49-50 | after text-mode newline translation, no `'\r'` is left, the text is no longer, a `'\n'` in the raw text remains, and text without `'\r'` is unchanged |
| `PyStr.UniversalNewlinesPrefix` | main.py:49-50 | text mode copies a stretch without `'\r'` unchanged and goes on translating what follows it |
| `PyStr.UniversalNewlinesCRLF` | main.py:49-50 | text mode reads a `"\r\n"` line ending as a single `'\n'` and translates the rest after it |
| `PyStr.UniversalNewlinesCR` | main.py:49-50 | text mode reads a lone `'\r'` (not followed by `'\n'`) as `'\n'` and translates the rest after it |
| `PyStr.LineEnd` | main.py:50 | the first line ends just after the first `'\n'`, or at the end of the text |
| `PyStr.SplitLines` | main.py:50 | file iteration yields no more lines than characters; every line is non-empty; a `'\n'` can only end a line, and every line but the last ends with one |
| `PyStr.ConcatSplitLines` | main.py:50 | the lines concatenated give back the text |
| `PromptGenerator.StripAll` | main.py:50 | element `i` is line `i` stripped, for every line of the file, and each is already a fixed point of `strip` |
| `PromptGenerator.NonEmptyKeepsStripped` | main.py:50 | filtering out blank lines keeps only stripped lines |
| `PromptGenerator.OptionsFromText` | main.py:50 | the options are at most as many as the file's lines, appear in the file's order (a subsequence of the stripped lines), and are each non-empty and stripped |
| `PromptGenerator.OptionsFromTextCounts` | main.py:50 | each stripped non-blank line is an option as many times as it occurs, and nothing else is |
| `PromptGenerator.LoadOptions` | main.py:46-56 | a file that cannot be opened or read gives `[]`; a readable one gives the options of its text |
| `PyStr.NatToString` | main.py:66 | `str(counter)` is a non-empty run of decimal digits without a leading zero |
| `PyStr.ParseNatToString` | main.py:66 | reading the digits back gives the number |
| `PyStr.NatToStringInjective` | main.py:66 | different counters give different digit strings |
| `PyStr.RFind` | main.py:63 | `rfind` returns the last occurrence of the character, or -1 |
| `PyStr.SplitExt` | main.py:63 | `name + ext` is the path; `ext` is empty or a dot with no further dot or slash; a non-empty `ext` has a non-dot character before it in the last path component; and when the last path component has a non-dot character before its last dot, `ext` runs from that dot to the end |
| `PromptGenerator.Candidate` | main.py:63-66 | the name tried with a counter is never the base name itself |
| `PromptGenerator.CandidateReadsBack` | main.py:63-66 | a candidate starts with the base's stem, ends with its extension, and the digits between read back as the counter |
| `PromptGenerator.CandidateInjective` | main.py:63-66 | different counters give different candidate names |
| `PromptGenerator.UniqueNameDeterministic` | main.py:58-69 | at most one name meets the specification of `get_unique_filename`, and that name is free |
| `PromptGenerator.GetUniqueFilename` | main.py:58-69 | it returns the base name when it is free; otherwise it returns `name + str(k) + ext` for the smallest `k >= 2` that is free, with every candidate from 2 to `k - 1` taken; the result is never taken; `k <= |existing| + 1`, which is why the loop terminates |
| `PromptGenerator.SubsetCardinality` | main.py:65-69 | a subset of a finite set is no larger (this bounds the counter) |
| `PromptGenerator.BetweenOfConcat` | main.py:115-121 | the text between a prefix and a suffix of their concatenation is recovered |
| `PromptGenerator.ConcatOfBetween` | main.py:115-121 | a line with a recoverable middle is prefix + middle + suffix |
| `PromptGenerator.Line` | main.py:115-121 | every output line is the fixed template whose prompt reads back as the given prompt text |
| `PromptGenerator.LineOfExtract` | main.py:115-121 | any line that yields a prompt is exactly the template around that prompt, so only the prompt text varies |
| `PromptGenerator.Choices` | main.py:105-109 | one part per category, in category order, and each part is one of that category's options |
| `PromptGenerator.Generate` | main.py:104-122 | exactly `n` lines; line `i` is the template around the prompt built from prompt `i`'s picks |
| `PromptGenerator.GeneratedLineParts` | main.py:105-122 | when no option is blank or holds a comma, each line's prompt reads back and splits into exactly one option per category, in category order |
| `PromptGenerator.CategoryOptions` | main.py:82-96 | a category's options are `[]` when the data directory is missing; non-empty options come from a listed, readable entry equal to `<category>.txt` up to case; every option is non-empty and stripped |
| `PromptGenerator.LoadAll` | main.py:80-96 | the loading loop's map has exactly the categories as keys, and stores for each the options of its case-insensitively found file, or `[]` when no file is found |
| `PromptGenerator.FirstUnstocked` | main.py:98-102 | it finds nothing exactly when every category has an option; otherwise it returns the first category, in order, whose options are empty |
| `PromptGenerator.Run` | main.py:71-122 | if some category has no options, it reports the first such category and writes nothing; otherwise the output name is the free name `get_unique_filename` chooses, and exactly `NumPrompts` lines are written, each the template around the joined picks |
| `PromptGenerator.RunMain` | main.py:71-122 | the same as `Run`, for the fixed category list of main.py:17-28: a failure names the first category without options and writes nothing; otherwise every category has options, the output name is the free name `get_unique_filename` chooses, and 100 template lines are written |

## Left out

- build.py (PyInstaller packaging, icons, version files) and launch.py (path
  set-up, `os.chdir`, dynamic import) are deployment and start-up plumbing,
  not part of this model. `import random.py` is an earlier variant of
  main.py, not modelled.
- The graphical interface, profiles and generation-parameter fields are
  described for the product but are not in main.py. They are not part of
  this model.
- `load_dotenv`, `os.makedirs`, every `print`, and the data-directory
  README that `main` writes at the end (main.py:124-136) are I/O side effects.
  They are left out.
- The file contents are taken as decoded text. A file that cannot be opened
  or decoded is an entry missing from `DataDir.files`. UTF-8 decoding itself
  is not modelled.
- `FindCaseInsensitiveFile` returns the matching entry name, not the
  `DATA_DIR / entry` path. The path join is not modelled.
- `FindCaseInsensitiveFile`: any `os.listdir` failure on an existing path
  is not modelled. Examples are a path that is not a directory, or a data
  directory without read permission. Nothing in `main` catches it, because
  the `try` at main.py:91 comes after the lookup at main.py:84. The run
  would stop before anything is written.
- Lower: folds ASCII letters only, because full Unicode case mapping is not
  modelled. Non-ASCII names compare exactly.
- SplitExt: follows POSIX `os.path.splitext`, because Windows drive letters
  and backslash separators are not modelled.
- The output file is opened in text mode (main.py:104), so on Windows each
  `'\n'` written at main.py:122 becomes `os.linesep`. The model's lines are
  the strings passed to `f.write`, before that translation.
- `GetUniqueFilename` is given the set of names that `os.path.exists` sees.
  In main.py that set is the working directory (main.py:73), while the file
  is written under `output/` (main.py:76-78). When those differ, an
  existing `output/generated_prompts.txt` is overwritten by the next run. The
  model does not relate the two directories.
- The `except` around `load_options` in `main` (main.py:91-96) fires only
  if one of the diagnostic prints at main.py:52, 55 or 93 raises, because
  `load_options` catches every other `Exception` itself. The handler stores `[]`
  either way. Printing is left out, so the model has only the path that
  stores the loaded options.
- `random.choice` is not modelled as randomness. The indices come from the
  caller's `Pick`, which must stay within range. Uniformity is out of scope.
- BuildPromptSplits and GeneratedLineParts: they require that no part
  contains a comma. That is simpler to prove than the exact condition:
  `split(", ")` goes wrong only when a part itself contains `", "`. The
  program itself promises nothing about reading prompts back.
