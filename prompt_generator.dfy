/**
 * The prompt generator of main.py: it resolves one word-list file per
 * category in the data directory (case-insensitively), loads the non-blank
 * stripped lines of each, refuses to run when a category has no option,
 * picks one option per category for each of `NumPrompts` prompts, joins the
 * picks with ", " and writes each prompt in a fixed A1111 command-line
 * template to an output file whose name does not clash with an existing one.
 *
 * The filesystem is a `DataDir` value and a set of taken names; the output
 * file is the returned sequence of lines; `random.choice` is a `Pick`
 * function supplied by the caller.
 */
module PromptGenerator {
  import opened Wrappers
  import opened PyStr

  /** The categories, in prompt order; each one's options live in "<category>.txt". */
  const Categories: seq<string> := [
    "Subject", "FacialExpression", "Clothing", "Situation", "Medium",
    "Style", "AdditionalDetails", "Color", "Lighting", "Remarks"
  ]

  /** How many prompts one run writes. */
  const NumPrompts: nat := 100

  /** The output file name asked for before uniqueness is enforced. */
  const OutputName: string := "generated_prompts.txt"

  /** The separator between the parts of a prompt. */
  const Separator: string := ", "

  /** The fixed text around the prompt in every output line. */
  const LinePrefix: string := "--prompt \""
  const LineSuffix: string := "\" --negative_prompt \"deformed, ugly, creepy, mutation\" --steps 20 --cfg_scale 9.5 --sampler_name \"DPM++ 2M Karras\" --seed -1 --width 1024 --height 1024\n"

  /**
   * The data directory: whether it exists, what `os.listdir` lists in it, and
   * the decoded text of every entry that can be read (an entry missing from
   * `files` raises when opened).
   */
  datatype DataDir = DataDir(present: bool, listing: seq<string>, files: map<string, string>)

  /**
   * `random.choice`: `pick(i, c, n)` is the index drawn for category number
   * `c` of prompt number `i` from a list of `n` options.
   */
  type Pick = (nat, nat, nat) -> nat

  ghost predicate PickInRange(pick: Pick) {
    forall i, c, n :: 0 < n ==> pick(i, c, n) < n
  }

  // ---------------------------------------------------------------- build_prompt

  /** The elements of `xs` that are not the empty string, in order. */
  function NonEmpty(xs: seq<string>): (r: seq<string>)
    ensures |r| <= |xs|
    ensures forall i :: 0 <= i < |r| ==> r[i] != []
    ensures forall x :: x in r <==> x in xs && x != []
  {
    if xs == [] then []
    else if xs[0] == [] then NonEmpty(xs[1..])
    else [xs[0]] + NonEmpty(xs[1..])
  }

  /** `a` is `b` with some elements deleted and the rest kept in order. */
  predicate IsSubsequence(a: seq<string>, b: seq<string>)
    decreases |b|
  {
    if a == [] then true
    else if b == [] then false
    else (a[0] == b[0] && IsSubsequence(a[1..], b[1..])) || IsSubsequence(a, b[1..])
  }

  /** The kept parts keep their order. */
  lemma {:induction false} NonEmptyIsSubsequence(xs: seq<string>)
    ensures IsSubsequence(NonEmpty(xs), xs)
  {
    if xs != [] {
      NonEmptyIsSubsequence(xs[1..]);
    }
  }

  /** Every non-empty part is kept as often as it occurs, and no empty part is. */
  lemma {:induction false} NonEmptyCounts(xs: seq<string>)
    ensures multiset(NonEmpty(xs)) == multiset(xs)[[] := 0]
  {
    if xs != [] {
      NonEmptyCounts(xs[1..]);
      assert xs == [xs[0]] + xs[1..];
    }
  }

  /** A list without empty parts is its own filtering. */
  lemma {:induction false} NonEmptyOfNonEmpty(xs: seq<string>)
    requires forall i :: 0 <= i < |xs| ==> xs[i] != []
    ensures NonEmpty(xs) == xs
  {
    if xs != [] {
      NonEmptyOfNonEmpty(xs[1..]);
    }
  }

  /**
   * `build_prompt(parts)`: the non-empty parts joined by ", "; the prompt is
   * empty exactly when every part is.
   */
  function BuildPrompt(parts: seq<string>): (r: string)
    ensures r == [] <==> forall i :: 0 <= i < |parts| ==> parts[i] == []
  {
    var kept := NonEmpty(parts);
    assert kept != [] ==> kept[0] in parts;
    assert (exists i :: 0 <= i < |parts| && parts[i] != []) ==> kept != [] by {
      if exists i :: 0 <= i < |parts| && parts[i] != [] {
        var i :| 0 <= i < |parts| && parts[i] != [];
        assert parts[i] in kept;
      }
    }
    Join(kept, Separator)
  }

  /**
   * Splitting the prompt at ", " gives back exactly the non-empty parts in
   * order, provided no part holds a comma; so no empty fragment ever sits
   * between two separators.
   */
  lemma BuildPromptSplits(parts: seq<string>)
    requires forall i :: 0 <= i < |parts| ==> ',' !in parts[i]
    requires exists i :: 0 <= i < |parts| && parts[i] != []
    ensures Split(BuildPrompt(parts), Separator) == NonEmpty(parts)
    ensures forall k :: 0 <= k < |NonEmpty(parts)| ==> Split(BuildPrompt(parts), Separator)[k] != []
  {
    var i :| 0 <= i < |parts| && parts[i] != [];
    assert parts[i] in NonEmpty(parts);
    var kept := NonEmpty(parts);
    forall k | 0 <= k < |kept| ensures Separator[0] !in kept[k] {
      assert kept[k] in parts;
    }
    SplitJoin(kept, Separator);
  }

  // ---------------------------------------------------- find_case_insensitive_file

  /** The first entry of `listing` whose lower-case form is `key`. */
  function FirstMatch(listing: seq<string>, key: string): (r: Option<string>)
    ensures r.None? <==> forall i :: 0 <= i < |listing| ==> Lower(listing[i]) != key
    ensures r.Some? ==> exists i :: 0 <= i < |listing| && listing[i] == r.value && Lower(listing[i]) == key
                          && forall j :: 0 <= j < i ==> Lower(listing[j]) != key
  {
    if listing == [] then None
    else if Lower(listing[0]) == key then Some(listing[0])
    else
      var r := FirstMatch(listing[1..], key);
      assert r.Some? ==> exists i :: 1 <= i < |listing| && listing[i] == r.value && Lower(listing[i]) == key
                          && forall j :: 0 <= j < i ==> Lower(listing[j]) != key by {
        if r.Some? {
          var i :| 0 <= i < |listing[1..]| && listing[1..][i] == r.value && Lower(listing[1..][i]) == key
                   && forall j :: 0 <= j < i ==> Lower(listing[1..][j]) != key;
          assert listing[i + 1] == r.value;
          assert forall j :: 1 <= j < i + 1 ==> Lower(listing[j]) != key by {
            forall j | 1 <= j < i + 1 ensures Lower(listing[j]) != key {
              assert listing[j] == listing[1..][j - 1];
            }
          }
        }
      }
      r
  }

  /**
   * `find_case_insensitive_file(target)`: nothing when the data directory is
   * missing, otherwise the first listed entry equal to `target` up to case.
   */
  method FindCaseInsensitiveFile(dir: DataDir, target: string) returns (r: Option<string>)
    ensures r == if dir.present then FirstMatch(dir.listing, Lower(target)) else None
  {
    if !dir.present {
      return None;
    }
    var key := Lower(target);
    for i := 0 to |dir.listing|
      invariant FirstMatch(dir.listing, key) == FirstMatch(dir.listing[i..], key)
    {
      if Lower(dir.listing[i]) == key {
        return Some(dir.listing[i]);
      }
      assert dir.listing[i..][1..] == dir.listing[i + 1..];
    }
    return None;
  }

  // ------------------------------------------------------------------ load_options

  /** What `open(name).read()` gives: the decoded text, or nothing when opening or decoding raises. */
  function ReadFile(dir: DataDir, name: string): Option<string> {
    if name in dir.files then Some(dir.files[name]) else None
  }

  /** The lines `for line in f` yields for a file whose decoded text is `text`. */
  function FileLines(text: string): seq<string> {
    SplitLines(UniversalNewlines(text))
  }

  /** `[line.strip() for line in lines]`. */
  function StripAll(lines: seq<string>): (r: seq<string>)
    ensures |r| == |lines|
    ensures forall i :: 0 <= i < |r| ==> r[i] == Strip(lines[i])
    ensures forall i :: 0 <= i < |r| ==> Strip(r[i]) == r[i]
  {
    var r := seq(|lines|, i requires 0 <= i < |lines| => Strip(lines[i]));
    assert forall i :: 0 <= i < |r| ==> r[i] == Strip(lines[i]);
    assert forall i :: 0 <= i < |r| ==> Strip(r[i]) == r[i] by {
      forall i | 0 <= i < |r| ensures Strip(r[i]) == r[i] {
        StripIdempotent(lines[i]);
      }
    }
    r
  }

  /**
   * `[line.strip() for line in f if line.strip()]`: the stripped, non-blank
   * lines of the text, in file order.
   */
  function OptionsFromText(text: string): (r: seq<string>)
    ensures |r| <= |FileLines(text)|
    ensures IsSubsequence(r, StripAll(FileLines(text)))
    ensures forall i :: 0 <= i < |r| ==> r[i] != [] && Strip(r[i]) == r[i]
  {
    var stripped := StripAll(FileLines(text));
    var r := NonEmpty(stripped);
    NonEmptyIsSubsequence(stripped);
    NonEmptyKeepsStripped(stripped);
    r
  }

  /** Filtering keeps only elements that were there, so stripped elements stay stripped. */
  lemma NonEmptyKeepsStripped(xs: seq<string>)
    requires forall i :: 0 <= i < |xs| ==> Strip(xs[i]) == xs[i]
    ensures forall i :: 0 <= i < |NonEmpty(xs)| ==> Strip(NonEmpty(xs)[i]) == NonEmpty(xs)[i]
  {
    var r := NonEmpty(xs);
    forall i | 0 <= i < |r| ensures Strip(r[i]) == r[i] {
      assert r[i] in xs;
    }
  }

  /**
   * `load_options(name)`: the options of a readable file; no options at all
   * when opening or reading it raises.
   */
  function LoadOptions(content: Option<string>): (r: seq<string>)
    ensures content.None? ==> r == []
    ensures content.Some? ==> r == OptionsFromText(content.value)
  {
    if content.None? then [] else OptionsFromText(content.value)
  }

  /**
   * The options a whole stripped line of the file contributes: each stripped
   * non-blank line exactly as many times as it occurs, and nothing else.
   */
  lemma OptionsFromTextCounts(text: string)
    ensures multiset(OptionsFromText(text)) == multiset(StripAll(FileLines(text)))[[] := 0]
  {
    NonEmptyCounts(StripAll(FileLines(text)));
  }

  /** The options of one category, as the loading loop of `main` stores them. */
  function CategoryOptions(dir: DataDir, cat: string): (r: seq<string>)
    ensures !dir.present ==> r == []
    ensures r != [] ==> exists e :: e in dir.listing && Lower(e) == Lower(cat + ".txt") && e in dir.files
    ensures forall i :: 0 <= i < |r| ==> r[i] != [] && Strip(r[i]) == r[i]
  {
    var found := if dir.present then FirstMatch(dir.listing, Lower(cat + ".txt")) else None;
    match found
    case None => []
    case Some(entry) => LoadOptions(ReadFile(dir, entry))
  }

  // ----------------------------------------------------------- get_unique_filename

  /** The name tried with counter `k`: `name + str(k) + ext` where `name, ext = splitext(base)`. */
  function Candidate(base: string, k: nat): (r: string)
    ensures r != base
  {
    var (name, ext) := SplitExt(base);
    name + NatToString(k) + ext
  }

  /**
   * A candidate keeps the stem and the extension of `base`, and the digits
   * between them read back as the counter.
   */
  lemma CandidateReadsBack(base: string, k: nat)
    ensures var (name, ext) := SplitExt(base);
            var r := Candidate(base, k);
            && r[..|name|] == name && r[|r| - |ext|..] == ext
            && IsDigits(r[|name|..|r| - |ext|]) && ParseNat(r[|name|..|r| - |ext|]) == k
  {
    var (name, ext) := SplitExt(base);
    var r := Candidate(base, k);
    ParseNatToString(k);
    assert r[|name|..|r| - |ext|] == NatToString(k);
  }

  /** Different counters give different candidates. */
  lemma CandidateInjective(base: string, a: nat, b: nat)
    ensures Candidate(base, a) == Candidate(base, b) ==> a == b
  {
    CandidateReadsBack(base, a);
    CandidateReadsBack(base, b);
  }

  /**
   * `r` is what `get_unique_filename(base)` answers when `existing` is the set
   * of names that exist: `base` when it is free, otherwise the candidate with
   * the smallest counter from 2 up that is free.
   */
  ghost predicate IsUniqueName(base: string, existing: set<string>, r: string) {
    if base !in existing then r == base
    else exists k :: 2 <= k && r == Candidate(base, k) && r !in existing
                     && forall j :: 2 <= j < k ==> Candidate(base, j) in existing
  }

  /** The answer is never a taken name, and at most one name qualifies. */
  lemma UniqueNameDeterministic(base: string, existing: set<string>, r1: string, r2: string)
    requires IsUniqueName(base, existing, r1) && IsUniqueName(base, existing, r2)
    ensures r1 == r2 && r1 !in existing
  {
    if base in existing {
      var k1 :| 2 <= k1 && r1 == Candidate(base, k1) && r1 !in existing
                && forall j :: 2 <= j < k1 ==> Candidate(base, j) in existing;
      var k2 :| 2 <= k2 && r2 == Candidate(base, k2) && r2 !in existing
                && forall j :: 2 <= j < k2 ==> Candidate(base, j) in existing;
    }
  }

  lemma {:induction false} SubsetCardinality(a: set<string>, b: set<string>)
    requires a <= b
    ensures |a| <= |b|
    decreases a
  {
    if a != {} {
      var x :| x in a;
      SubsetCardinality(a - {x}, b - {x});
    }
  }

  /**
   * `get_unique_filename(base)`: `base` when it does not exist, otherwise the
   * first free `name + str(k) + ext` for k = 2, 3, ...; the counter never
   * passes `|existing| + 1`, since each taken candidate is a distinct member
   * of the finite set `existing`.
   */
  method GetUniqueFilename(base: string, existing: set<string>) returns (r: string)
    ensures IsUniqueName(base, existing, r)
    ensures r !in existing
    ensures base in existing ==> exists k :: 2 <= k <= |existing| + 1 && r == Candidate(base, k)
  {
    if base !in existing {
      return base;
    }
    var (name, ext) := SplitExt(base);
    var counter: nat := 2;
    ghost var tried: set<string> := {};
    while true
      invariant 2 <= counter
      invariant forall j :: 2 <= j < counter ==> Candidate(base, j) in tried
      invariant forall s :: s in tried ==> exists j :: 2 <= j < counter && s == Candidate(base, j)
      invariant tried <= existing && base !in tried
      invariant |tried| == counter - 2
      decreases existing - tried
    {
      var candidate := name + NatToString(counter) + ext;
      assert candidate == Candidate(base, counter);
      assert candidate !in tried by {
        if candidate in tried {
          var j :| 2 <= j < counter && candidate == Candidate(base, j);
          CandidateInjective(base, j, counter);
        }
      }
      SubsetCardinality(tried + {base}, existing);
      if candidate !in existing {
        return candidate;
      }
      tried := tried + {candidate};
      counter := counter + 1;
    }
  }

  // ------------------------------------------------------------ generation in main

  /** The output line for one prompt: the fixed template, with only the prompt text varying. */
  function Line(prompt: string): (r: string)
    ensures Between(LinePrefix, LineSuffix, r) == Some(prompt)
  {
    BetweenOfConcat(LinePrefix, prompt, LineSuffix);
    LinePrefix + prompt + LineSuffix
  }

  /** The text between `prefix` and `suffix`, if `line` starts with the one and ends with the other. */
  function Between(prefix: string, suffix: string, line: string): Option<string> {
    if |prefix| + |suffix| <= |line| && line[..|prefix|] == prefix && line[|line| - |suffix|..] == suffix
    then Some(line[|prefix|..|line| - |suffix|])
    else None
  }

  lemma BetweenOfConcat(prefix: string, text: string, suffix: string)
    ensures Between(prefix, suffix, prefix + text + suffix) == Some(text)
  {
    var line := prefix + text + suffix;
    assert line[..|prefix|] == prefix;
    assert line[|line| - |suffix|..] == suffix;
    assert line[|prefix|..|line| - |suffix|] == text;
  }

  lemma ConcatOfBetween(prefix: string, suffix: string, line: string, text: string)
    requires Between(prefix, suffix, line) == Some(text)
    ensures prefix + text + suffix == line
  {
    var head, tail := |prefix|, |line| - |suffix|;
    assert line == line[..head] + line[head..tail] + line[tail..];
  }

  /** The prompt inside an output line, if the line has the template's shape. */
  function ExtractPrompt(line: string): Option<string> {
    Between(LinePrefix, LineSuffix, line)
  }

  /** Only template lines have a prompt to read back. */
  lemma LineOfExtract(line: string, prompt: string)
    requires ExtractPrompt(line) == Some(prompt)
    ensures Line(prompt) == line
  {
    ConcatOfBetween(LinePrefix, LineSuffix, line, prompt);
  }

  /** Every category has at least one option. */
  predicate AllStocked(categories: seq<string>, options: map<string, seq<string>>) {
    forall c :: c in categories ==> c in options && options[c] != []
  }

  /** The parts of prompt number `i`: one pick from each category's options, in category order. */
  function Choices(categories: seq<string>, options: map<string, seq<string>>, i: nat, pick: Pick): (parts: seq<string>)
    requires AllStocked(categories, options) && PickInRange(pick)
    ensures |parts| == |categories|
    ensures forall c :: 0 <= c < |parts| ==> parts[c] in options[categories[c]]
  {
    seq(|categories|, c requires 0 <= c < |categories| =>
      options[categories[c]][pick(i, c, |options[categories[c]]|)])
  }

  /**
   * The writing loop of `main`: `n` lines, line `i` being the template around
   * the prompt built from `Choices(..., i, ...)`.
   */
  method Generate(categories: seq<string>, options: map<string, seq<string>>, n: nat, pick: Pick)
    returns (lines: seq<string>)
    requires AllStocked(categories, options) && PickInRange(pick)
    ensures |lines| == n
    ensures forall i :: 0 <= i < n ==> lines[i] == Line(BuildPrompt(Choices(categories, options, i, pick)))
  {
    lines := [];
    for i := 0 to n
      invariant |lines| == i
      invariant forall k :: 0 <= k < i ==> lines[k] == Line(BuildPrompt(Choices(categories, options, k, pick)))
    {
      var parts: seq<string> := [];
      for c := 0 to |categories|
        invariant parts == Choices(categories, options, i, pick)[..c]
      {
        var opts := options[categories[c]];
        var choice := opts[pick(i, c, |opts|)];
        parts := parts + [choice];
      }
      assert parts == Choices(categories, options, i, pick);
      lines := lines + [Line(BuildPrompt(parts))];
    }
  }

  /** No option is blank and none holds a comma. */
  predicate CommaFree(opts: seq<string>) {
    forall k :: 0 <= k < |opts| ==> opts[k] != [] && ',' !in opts[k]
  }

  /**
   * When no option is blank and none holds a comma (true of every loaded
   * option but the comma), each generated line carries exactly one option of
   * every category, in category order, and nothing else.
   */
  lemma GeneratedLineParts(categories: seq<string>, options: map<string, seq<string>>, i: nat, pick: Pick)
    requires AllStocked(categories, options) && PickInRange(pick) && categories != []
    requires forall c :: c in categories ==> CommaFree(options[c])
    ensures var parts := Choices(categories, options, i, pick);
            && ExtractPrompt(Line(BuildPrompt(parts))) == Some(BuildPrompt(parts))
            && Split(BuildPrompt(parts), Separator) == parts
  {
    var parts := Choices(categories, options, i, pick);
    assert categories[0] in categories;
    forall c | 0 <= c < |parts| ensures parts[c] != [] && ',' !in parts[c] {
      assert categories[c] in categories;
      var opts := options[categories[c]];
      var k :| 0 <= k < |opts| && opts[k] == parts[c];
    }
    NonEmptyOfNonEmpty(parts);
    BuildPromptSplits(parts);
  }

  /** The options map `main` builds: every category's options. */
  function LoadedOptions(dir: DataDir, categories: seq<string>): map<string, seq<string>> {
    map c | c in categories :: CategoryOptions(dir, c)
  }

  /** The loading loop of `main`: resolve and load the options of every category. */
  method LoadAll(dir: DataDir, categories: seq<string>) returns (options: map<string, seq<string>>)
    ensures options.Keys == set c | c in categories
    ensures forall c :: c in categories ==> options[c] == CategoryOptions(dir, c)
    ensures options == LoadedOptions(dir, categories)
  {
    options := map[];
    for k := 0 to |categories|
      invariant options.Keys == set j | 0 <= j < k :: categories[j]
      invariant forall j :: 0 <= j < k ==> categories[j] in options && options[categories[j]] == CategoryOptions(dir, categories[j])
    {
      var cat := categories[k];
      var actual := FindCaseInsensitiveFile(dir, cat + ".txt");
      if actual.None? {
        options := options[cat := []];
      } else {
        options := options[cat := LoadOptions(ReadFile(dir, actual.value))];
      }
    }
  }

  /** The checking loop of `main`: the first category, in order, that has no options. */
  method FirstUnstocked(categories: seq<string>, options: map<string, seq<string>>) returns (r: Option<nat>)
    requires forall c :: c in categories ==> c in options
    ensures r.None? <==> AllStocked(categories, options)
    ensures r.Some? ==> r.value < |categories| && options[categories[r.value]] == []
                        && forall j :: 0 <= j < r.value ==> options[categories[j]] != []
  {
    for k := 0 to |categories|
      invariant forall j :: 0 <= j < k ==> options[categories[j]] != []
    {
      if options[categories[k]] == [] {
        return Some(k);
      }
    }
    return None;
  }

  /** What a run of `main` ends with. */
  datatype RunOutcome =
    | NoOptions(category: string)                   // the first category left without options; nothing is written
    | Written(fileName: string, lines: seq<string>) // the output file's name and its lines

  /**
   * `main` over a list of categories: pick a free output name among
   * `existing`, load every category, stop at the first category without
   * options, otherwise write `NumPrompts` template lines.
   */
  method Run(categories: seq<string>, dir: DataDir, existing: set<string>, pick: Pick) returns (out: RunOutcome)
    requires PickInRange(pick)
    ensures out.NoOptions? ==> exists k :: 0 <= k < |categories| && out.category == categories[k]
                                  && CategoryOptions(dir, categories[k]) == []
                                  && forall j :: 0 <= j < k ==> CategoryOptions(dir, categories[j]) != []
    ensures out.Written? ==> forall c :: c in categories ==> CategoryOptions(dir, c) != []
    ensures out.Written? ==> IsUniqueName(OutputName, existing, out.fileName) && out.fileName !in existing
    ensures out.Written? ==> |out.lines| == NumPrompts
    ensures out.Written? ==> forall i :: 0 <= i < NumPrompts ==>
              out.lines[i] == Line(BuildPrompt(Choices(categories, LoadedOptions(dir, categories), i, pick)))
  {
    var outputFile := GetUniqueFilename(OutputName, existing);
    var options := LoadAll(dir, categories);
    var missing := FirstUnstocked(categories, options);
    if missing.Some? {
      return NoOptions(categories[missing.value]);
    }
    var lines := Generate(categories, options, NumPrompts, pick);
    return Written(outputFile, lines);
  }

  /** `main()` itself: the run over the program's fixed category list. */
  method RunMain(dir: DataDir, existing: set<string>, pick: Pick) returns (out: RunOutcome)
    requires PickInRange(pick)
    ensures out.NoOptions? ==> exists k :: 0 <= k < |Categories| && out.category == Categories[k]
                                  && CategoryOptions(dir, Categories[k]) == []
                                  && forall j :: 0 <= j < k ==> CategoryOptions(dir, Categories[j]) != []
    ensures out.Written? ==> forall c :: c in Categories ==> CategoryOptions(dir, c) != []
    ensures out.Written? ==> IsUniqueName(OutputName, existing, out.fileName) && out.fileName !in existing
    ensures out.Written? ==> |out.lines| == NumPrompts
    ensures out.Written? ==> forall i :: 0 <= i < NumPrompts ==>
              out.lines[i] == Line(BuildPrompt(Choices(Categories, LoadedOptions(dir, Categories), i, pick)))
  {
    out := Run(Categories, dir, existing, pick);
  }
}
