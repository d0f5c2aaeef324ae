/** The deterministic parts of the AI analyzer: which Gemini model it
    picks from the names the service lists, how it writes the extracted
    functions and classes into its prompt, and the plain README it falls
    back to when generation fails. */
module AiAnalyzer {
  import opened Wrappers
  import opened Strings
  import opened Extractors

  const FlashTag: string := "gemini-2.5-flash"
  const GeminiTag: string := "gemini"
  const VisionTag: string := "vision"
  /** The name used when no listed model qualifies. */
  const DefaultModel: string := "models/gemini-2.5-flash"

  /** First preference: a flash model that is not a vision model. */
  predicate IsFlash(name: string) {
    Contains(name, FlashTag) && !Contains(name, VisionTag)
  }

  /** Second preference: any Gemini model that is not a vision model. */
  predicate IsGemini(name: string) {
    Contains(name, GeminiTag) && !Contains(name, VisionTag)
  }

  /** A string without the first character of `needle` does not contain it. */
  lemma NotContainsWithoutHead(s: string, needle: string)
    requires |needle| > 0 && needle[0] !in s
    ensures !Contains(s, needle)
  {
    forall i | 0 <= i <= |s| ensures !IsPrefix(needle, s[i..]) {
      if i < |s| {
        assert s[i..][0] == s[i] && s[i] in s;
      }
    }
  }

  lemma NoVisionInDefault()
    ensures !Contains(DefaultModel, VisionTag)
  {
    NotContainsWithoutHead(DefaultModel, VisionTag);
  }

  /** The selection loop of the constructor: the first flash model wins,
      even over a Gemini model listed before it; without one, the first
      Gemini model; without either, the default name. */
  method SelectModel(names: seq<string>) returns (r: string)
    ensures forall i :: (0 <= i < |names| && IsFlash(names[i])
              && (forall j :: 0 <= j < i ==> !IsFlash(names[j]))) ==> r == names[i]
    ensures (forall j :: 0 <= j < |names| ==> !IsFlash(names[j])) ==>
              forall i :: (0 <= i < |names| && IsGemini(names[i])
                && (forall j :: 0 <= j < i ==> !IsGemini(names[j]))) ==> r == names[i]
    ensures (forall j :: 0 <= j < |names| ==> !IsGemini(names[j]) && !IsFlash(names[j])) ==> r == DefaultModel
    ensures r in names || r == DefaultModel
    ensures !Contains(r, VisionTag)
  {
    var chosen := -1;
    var i := 0;
    while i < |names|
      invariant 0 <= i <= |names|
      invariant -1 <= chosen < i
      invariant forall j :: 0 <= j < i ==> !IsFlash(names[j])
      invariant chosen >= 0 ==> IsGemini(names[chosen])
      invariant chosen >= 0 ==> forall j :: 0 <= j < chosen ==> !IsGemini(names[j])
      invariant chosen < 0 ==> forall j :: 0 <= j < i ==> !IsGemini(names[j])
    {
      if IsFlash(names[i]) {
        return names[i];
      } else if IsGemini(names[i]) && chosen < 0 {
        chosen := i;
      }
      i := i + 1;
    }
    if chosen >= 0 {
      r := names[chosen];
    } else {
      NoVisionInDefault();
      r := DefaultModel;
    }
  }

  /** The constructor as written: `genai.list_models()` yields the names
      once, the debug print's list comprehension reads all of them, and
      the selection loop then iterates the exhausted listing. `printed` is
      what the print shows. */
  method SelectModelAsWritten(names: seq<string>) returns (printed: seq<string>, r: string)
    ensures printed == names
    ensures r == DefaultModel
  {
    var pos := 0;
    printed := [];
    while pos < |names|
      invariant 0 <= pos <= |names| && printed == names[..pos]
    {
      printed := printed + [names[pos]];
      pos := pos + 1;
    }
    assert printed == names;
    r := SelectModel(names[pos..]);
  }

  const FlashLite: string := "models/gemini-2.5-flash-lite"

  lemma FlashLiteIsFlash()
    ensures IsFlash(FlashLite)
  {
    assert FlashLite[7..][..|FlashTag|] == FlashTag;
    NotContainsWithoutHead(FlashLite, VisionTag);
  }

  /** With a flash model listed, the selection as written still takes the
      default, while the loop over the names picks the listed model. */
  method ConsumedListingExample() returns (asWritten: string, intended: string)
    ensures asWritten == DefaultModel
    ensures intended == FlashLite
    ensures asWritten != intended
  {
    var names := [FlashLite];
    FlashLiteIsFlash();
    assert IsFlash(names[0]);
    var _, w := SelectModelAsWritten(names);
    asWritten := w;
    intended := SelectModel(names);
    assert |asWritten| != |intended|;
  }

  /** A line of the functions list: `- name(params) in file`. */
  function FunctionLine(f: FunctionInfo): string {
    "- " + f.name + "(" + f.params + ") in " + f.file
  }

  /** A line of the classes list: `- name in file`, with ` extends X` only
      when the inheritance is non-empty. */
  function ClassLine(c: ClassInfo): string {
    "- " + c.name + " in " + c.file + ExtendsPart(c)
  }

  function ExtendsPart(c: ClassInfo): string {
    if c.inheritance != "" then " extends " + c.inheritance else ""
  }

  function FunctionsText(fs: seq<FunctionInfo>): string {
    Join(seq(|fs|, i requires 0 <= i < |fs| => FunctionLine(fs[i])), '\n')
  }

  function ClassesText(cs: seq<ClassInfo>): string {
    Join(seq(|cs|, i requires 0 <= i < |cs| => ClassLine(cs[i])), '\n')
  }

  /** Reads a functions-list line back into its name, parameters and file. */
  function ParseFunctionLine(line: string): Option<(string, string, string)> {
    if !IsPrefix("- ", line) then None
    else
      var rest := line[2..];
      if '(' !in rest then None
      else
        var i := IndexOf(rest, '(');
        var after := rest[i + 1..];
        if ')' !in after then None
        else
          var k := IndexOf(after, ')');
          var tail := after[k + 1..];
          if !IsPrefix(" in ", tail) then None
          else Some((rest[..i], after[..k], tail[4..]))
  }

  /** A piece free of `c`, then `c`: the first `c` is right after the piece. */
  lemma FirstAfterPiece(s: string, c: char, a: string, b: string)
    requires c !in a && s == a + [c] + b
    ensures c in s && IndexOf(s, c) == |a|
    ensures s[..|a|] == a && s[|a| + 1..] == b
  {
    assert s[..|a|] == a;
    assert s[|a|] == c;
    IndexOfUnique(s, c, |a|);
    assert s[|a| + 1..] == b;
  }

  /** A function line reads back as the record it was written from, given
      that the name has no `(` and the parameters no `)`. The name groups
      of the extractor patterns are identifiers, but a parameter group can
      hold a `)`: `def f(x=g()):` captures `x=g()`, whose line does not
      read back. */
  lemma FunctionLineRoundTrip(f: FunctionInfo)
    requires '(' !in f.name && ')' !in f.params
    ensures ParseFunctionLine(FunctionLine(f)) == Some((f.name, f.params, f.file))
  {
    var line := FunctionLine(f);
    var tail := " in " + f.file;
    var after := f.params + [')'] + tail;
    var rest := f.name + ['('] + after;
    assert line == "- " + rest;
    assert IsPrefix("- ", line) && line[2..] == rest;
    FirstAfterPiece(rest, '(', f.name, after);
    FirstAfterPiece(after, ')', f.params, tail);
    assert IsPrefix(" in ", tail) && tail[4..] == f.file;
  }

  /** A class with a base type is written as the line without one, then
      ` extends ` and the base; without a base the line ends at the file. */
  lemma ClassLineExtends(c: ClassInfo)
    ensures c.inheritance != "" ==>
      ClassLine(c) == ClassLine(c.(inheritance := "")) + " extends " + c.inheritance
    ensures c.inheritance == "" ==> ClassLine(c) == "- " + c.name + " in " + c.file
  {
  }

  /** Reads a classes-list line back into its name, file and base (empty
      when the line has no ` extends ` part). */
  function ParseClassLine(line: string): Option<(string, string, string)> {
    if !IsPrefix("- ", line) then None
    else
      var rest := line[2..];
      if ' ' !in rest then None
      else
        var i := IndexOf(rest, ' ');
        var after := rest[i + 1..];
        if !IsPrefix("in ", after) then None
        else
          match ParseClassTail(after[3..])
          case None => None
          case Some((file, base)) => Some((rest[..i], file, base))
  }

  /** The part after `in `: the file, then optionally ` extends ` and the base. */
  function ParseClassTail(tail: string): Option<(string, string)> {
    if ' ' !in tail then Some((tail, ""))
    else
      var j := IndexOf(tail, ' ');
      var ext := tail[j + 1..];
      if IsPrefix("extends ", ext) then Some((tail[..j], ext[8..])) else None
  }

  lemma ClassTailRoundTrip(c: ClassInfo)
    requires ' ' !in c.file
    ensures ParseClassTail(c.file + ExtendsPart(c)) == Some((c.file, c.inheritance))
  {
    if c.inheritance == "" {
      assert c.file + ExtendsPart(c) == c.file;
    } else {
      var base := "extends " + c.inheritance;
      assert c.file + ExtendsPart(c) == c.file + [' '] + base;
      FirstAfterPiece(c.file + ExtendsPart(c), ' ', c.file, base);
      assert IsPrefix("extends ", base) && base[8..] == c.inheritance;
    }
  }

  /** A class line reads back as the record it was written from, base
      included, given that neither the name nor the file has a space. The
      base may have spaces (`class A(B, C):` records `B, C`). */
  lemma ClassLineRoundTrip(c: ClassInfo)
    requires ' ' !in c.name && ' ' !in c.file
    ensures ParseClassLine(ClassLine(c)) == Some((c.name, c.file, c.inheritance))
  {
    var tail := c.file + ExtendsPart(c);
    var after := "in " + tail;
    var rest := c.name + [' '] + after;
    assert ClassLine(c) == "- " + rest;
    assert IsPrefix("- ", ClassLine(c)) && ClassLine(c)[2..] == rest;
    FirstAfterPiece(rest, ' ', c.name, after);
    assert IsPrefix("in ", after) && after[3..] == tail;
    ClassTailRoundTrip(c);
  }

  /** The prompt's functions list splits back into one line per function,
      in order, when no field contains a line break. */
  lemma FunctionsTextLines(fs: seq<FunctionInfo>)
    requires |fs| >= 1
    requires forall i :: 0 <= i < |fs| ==> '\n' !in FunctionLine(fs[i])
    ensures var lines := Split(FunctionsText(fs), '\n');
            |lines| == |fs| && forall i :: 0 <= i < |fs| ==> lines[i] == FunctionLine(fs[i])
  {
    SplitJoin(seq(|fs|, i requires 0 <= i < |fs| => FunctionLine(fs[i])), '\n');
  }

  lemma ClassesTextLines(cs: seq<ClassInfo>)
    requires |cs| >= 1
    requires forall i :: 0 <= i < |cs| ==> '\n' !in ClassLine(cs[i])
    ensures var lines := Split(ClassesText(cs), '\n');
            |lines| == |cs| && forall i :: 0 <= i < |cs| ==> lines[i] == ClassLine(cs[i])
  {
    SplitJoin(seq(|cs|, i requires 0 <= i < |cs| => ClassLine(cs[i])), '\n');
  }

  /** A text entry of the metadata: missing, JSON `null`, or a string. */
  datatype JsonText = Missing | JsonNull | Text(value: string)

  /** `d.get(key, default)` formatted into an f-string: a missing key gives
      the default and a `null` gives Python's `None`, printed as "None". */
  function Rendered(t: JsonText, default: string): string {
    match t
    case Missing => default
    case JsonNull => "None"
    case Text(s) => s
  }

  /** The `license` entry of the repository metadata: missing, JSON
      `null`, or an object whose `name` may be missing or `null`. */
  datatype License = Absent | Null | Object(name: JsonText)

  /** What the fallback README reads from the analysis results: the
      repository name and description, the language keys in order, the
      features and the license. */
  datatype ReadmeInput = ReadmeInput(
    name: JsonText,
    description: JsonText,
    languages: seq<string>,
    features: seq<string>,
    license: License)

  const UnknownName: string := "Unknown Repository"
  const UnknownLicense: string := "Not specified"

  function Bullets(xs: seq<string>): (r: seq<string>)
    ensures |r| == |xs|
    ensures forall i :: 0 <= i < |xs| ==> r[i] == "- " + xs[i]
  {
    seq(|xs|, i requires 0 <= i < |xs| => "- " + xs[i])
  }

  /** A titled bullet list, present only for a non-empty list. */
  function ListSection(title: string, xs: seq<string>): seq<string> {
    if |xs| == 0 then [] else ["## " + title, ""] + Bullets(xs) + [""]
  }

  /** The description paragraph's text: `None` and "" are both falsy, so
      a missing, `null` or empty description writes no paragraph. */
  function DescriptionOf(d: JsonText): string {
    if d.Text? then d.value else ""
  }

  function Head(input: ReadmeInput): seq<string> {
    var name := Rendered(input.name, UnknownName);
    var desc := DescriptionOf(input.description);
    ["# " + name, ""] + (if desc != "" then [desc, ""] else [])
  }

  function Tail(input: ReadmeInput, license: string): seq<string> {
    var name := Rendered(input.name, UnknownName);
    [ "## Installation", "", "```bash",
      "git clone https://github.com/username/" + name + ".git",
      "cd " + name, "```", "",
      "## Usage", "", "Add usage instructions here.", "",
      "## License", "",
      "This project is licensed under " + license + "." ]
  }

  /** The license line as the source computes it: a JSON `null` makes the
      chained lookup fail, since `None` has no `get`. */
  function LicenseNameAsWritten(l: License): Result<string> {
    match l
    case Absent => Ok(UnknownLicense)
    case Null => Err("AttributeError: 'NoneType' object has no attribute 'get'")
    case Object(name) => Ok(Rendered(name, UnknownLicense))
  }

  /** The intended license line: a `null` license reads as unspecified,
      like a missing one. */
  function LicenseName(l: License): string {
    match l
    case Object(name) => Rendered(name, UnknownLicense)
    case _ => UnknownLicense
  }

  /** `_generate_basic_readme` as written, as its list of lines. */
  function BasicReadmeAsWritten(input: ReadmeInput): Result<seq<string>> {
    var license := LicenseNameAsWritten(input.license);
    if license.Err? then Err(license.message)
    else Ok(Head(input) + ListSection("Technologies", input.languages)
            + ListSection("Features", input.features) + Tail(input, license.value))
  }

  /** `_generate_basic_readme` with the `null` license read as unspecified. */
  function BasicReadme(input: ReadmeInput): seq<string> {
    Head(input) + ListSection("Technologies", input.languages)
    + ListSection("Features", input.features) + Tail(input, LicenseName(input.license))
  }

  /** The two agree except on a `null` license, where the source fails. */
  lemma BasicReadmeCorrection(input: ReadmeInput)
    ensures BasicReadmeAsWritten(input).Err? <==> input.license == Null
    ensures input.license != Null ==> BasicReadmeAsWritten(input) == Ok(BasicReadme(input))
  {
  }

  /** The repository metadata `{"license": null}`, as the hosting service
      returns it for a repository without a license. */
  lemma NullLicenseFails()
    ensures BasicReadmeAsWritten(ReadmeInput(Text("repo"), Missing, [], [], Null)).Err?
    ensures LicenseName(Null) == UnknownLicense
  {
  }

  function HeadLength(input: ReadmeInput): nat {
    if DescriptionOf(input.description) != "" then 4 else 2
  }

  /** The title (the name, "Unknown Repository" when missing, "None" when
      `null`), then the description paragraph only for a non-empty string
      description. */
  lemma HeadShape(input: ReadmeInput)
    ensures |Head(input)| == HeadLength(input)
    ensures input.name.Text? ==> Head(input)[0] == "# " + input.name.value
    ensures input.name.Missing? ==> Head(input)[0] == "# Unknown Repository"
    ensures input.name.JsonNull? ==> Head(input)[0] == "# None"
    ensures |Head(input)| == 4 <==> input.description.Text? && input.description.value != ""
    ensures |Head(input)| == 4 ==> Head(input)[2] == input.description.value
  {
  }

  function SectionLength(xs: seq<string>): nat {
    if |xs| == 0 then 0 else |xs| + 3
  }

  /** A titled list is its heading, a blank line, one bullet per element in
      order and a blank line, or nothing for an empty list. */
  lemma ListSectionShape(title: string, xs: seq<string>)
    ensures |ListSection(title, xs)| == SectionLength(xs)
    ensures |xs| > 0 ==> ListSection(title, xs)[0] == "## " + title
    ensures forall i :: 0 <= i < |xs| ==> ListSection(title, xs)[2 + i] == "- " + xs[i]
  {
    if |xs| > 0 {
      var b := Bullets(xs);
      assert ListSection(title, xs) == ["## " + title, ""] + b + [""];
      forall i | 0 <= i < |xs| ensures ListSection(title, xs)[2 + i] == "- " + xs[i] {
        assert (["## " + title, ""] + b + [""])[2 + i] == b[i];
      }
    }
  }

  lemma TailShape(input: ReadmeInput, license: string)
    ensures |Tail(input, license)| == 14
    ensures Tail(input, license)[13] == "This project is licensed under " + license + "."
  {
  }

  /** The size of the fallback README: the head, a section per non-empty
      list, and the fixed installation, usage and license text, the license
      line coming last. */
  lemma BasicReadmeLayout(input: ReadmeInput)
    ensures var r := BasicReadme(input);
            && |r| == HeadLength(input) + SectionLength(input.languages) + SectionLength(input.features) + 14
            && r[..HeadLength(input)] == Head(input)
            && r[|r| - 1] == "This project is licensed under " + LicenseName(input.license) + "."
  {
    var h := Head(input);
    var ls := ListSection("Technologies", input.languages);
    var fs := ListSection("Features", input.features);
    var tl := Tail(input, LicenseName(input.license));
    HeadShape(input);
    ListSectionShape("Technologies", input.languages);
    ListSectionShape("Features", input.features);
    TailShape(input, LicenseName(input.license));
    var r := h + ls + fs + tl;
    assert BasicReadme(input) == r;
    assert r[..|h|] == h;
    assert r[|r| - 1] == tl[13];
  }

  /** The Technologies section follows the head only when there are
      languages, with one bullet per language in order. */
  lemma BasicReadmeTechnologies(input: ReadmeInput, i: nat)
    requires i < |input.languages|
    ensures var t := HeadLength(input);
            var r := BasicReadme(input);
            && t + 2 + i < |r|
            && r[t] == "## Technologies"
            && r[t + 2 + i] == "- " + input.languages[i]
  {
    var h := Head(input);
    var ls := ListSection("Technologies", input.languages);
    var fs := ListSection("Features", input.features);
    var tl := Tail(input, LicenseName(input.license));
    HeadShape(input);
    ListSectionAt("Technologies", input.languages, i);
    assert BasicReadme(input) == h + ls + fs + tl;
    ConcatIndex(h, ls, fs, tl, 0);
    ConcatIndex(h, ls, fs, tl, 2 + i);
  }

  lemma ListSectionAt(title: string, xs: seq<string>, i: nat)
    requires i < |xs|
    ensures |ListSection(title, xs)| == |xs| + 3
    ensures ListSection(title, xs)[0] == "## " + title
    ensures ListSection(title, xs)[2 + i] == "- " + xs[i]
  {
    var b := Bullets(xs);
    assert ListSection(title, xs) == ["## " + title, ""] + b + [""];
    assert (["## " + title, ""] + b + [""])[2 + i] == b[i];
  }

  /** An index into the second of four concatenated pieces. */
  lemma ConcatIndex(a: seq<string>, b: seq<string>, c: seq<string>, d: seq<string>, k: nat)
    requires k < |b|
    ensures |a| + k < |a + b + c + d|
    ensures (a + b + c + d)[|a| + k] == b[k]
  {
    assert (a + b + c + d)[|a| + k] == (a + b)[|a| + k];
  }

  /** The license line names the license when the metadata carries a
      license object with a string name, and reads "None" for a `null`
      name. Everything else reads "Not specified". */
  lemma LicenseDefault(l: License)
    ensures LicenseName(l) != UnknownLicense ==>
      l.Object? && (l.name.Text? ==> l.name.value == LicenseName(l)) && (l.name.JsonNull? ==> LicenseName(l) == "None")
    ensures !(l.Object? && !l.name.Missing?) ==> LicenseName(l) == UnknownLicense
    ensures l.Object? && l.name.Text? ==> LicenseName(l) == l.name.value
    ensures l.Object? && l.name.JsonNull? ==> LicenseName(l) == "None"
  {
  }
}
