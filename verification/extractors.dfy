/** The per-language extractors `_extract_python_elements`,
    `_extract_js_elements`, `_extract_java_elements` and
    `_extract_kotlin_elements`. The regular expressions themselves are not
    modelled: what each pattern found in a file is given as a sequence of
    match records, and the model covers what the extractors do with them. */
module Extractors {
  import opened Wrappers
  import opened Strings

  /** An extracted function: the `functions` record of the analyzer. */
  datatype FunctionInfo = FunctionInfo(name: string, file: string, params: string, language: string)

  /** An extracted class: the `classes` record of the analyzer. */
  datatype ClassInfo = ClassInfo(name: string, file: string, inheritance: string, language: string)

  /** The run-wide collections the extractors append to. */
  datatype Collected = Collected(functions: seq<FunctionInfo>, classes: seq<ClassInfo>)

  /** A match of a function pattern: the name group and the parameter group. */
  datatype DefMatch = DefMatch(name: string, params: string)

  /** A match of a class pattern: the name group and the optional base-type
      group (for Java, the `extends` group; its `implements` group is never
      read). */
  datatype ClassMatch = ClassMatch(name: string, base: Option<string>)

  /** A match of the Kotlin extension-function pattern. */
  datatype ExtensionMatch = ExtensionMatch(receiver: string, name: string, params: string)

  /** Everything the patterns of one extractor found in one file, in match
      order: `defs` for the function pattern, `arrows` for the name group of
      the JavaScript arrow-function pattern, `classes` for the class
      pattern and `extensions` for the Kotlin extension pattern. An
      extractor reads only the fields its language has patterns for. */
  datatype Scan = Scan(
    defs: seq<DefMatch>,
    arrows: seq<string>,
    classes: seq<ClassMatch>,
    extensions: seq<ExtensionMatch>)

  /** The four extractors, chosen by file extension. */
  datatype Language = Python | JavaScript | Java | Kotlin

  const ArrowParams: string := "arrow function"
  const KotlinExtensionTag: string := "Kotlin (Extension)"

  /** The privacy heuristic: one leading underscore, but not two. */
  predicate IsPrivateName(name: string) {
    IsPrefix("_", name) && !IsPrefix("__", name)
  }

  /** The public matches, in order. */
  function PublicDefs(defs: seq<DefMatch>): (r: seq<DefMatch>)
    ensures |r| <= |defs|
    ensures forall m :: m in r <==> m in defs && !IsPrivateName(m.name)
  {
    if |defs| == 0 then []
    else if IsPrivateName(defs[0].name) then PublicDefs(defs[1..])
    else [defs[0]] + PublicDefs(defs[1..])
  }

  /** The privacy filter works match by match: a single match is kept iff
      it is public (`PublicDefsSingle`), and filtering a concatenation
      filters each part, so every public match is kept once and in match
      order. */
  lemma {:induction false} PublicDefsAppend(a: seq<DefMatch>, b: seq<DefMatch>)
    ensures PublicDefs(a + b) == PublicDefs(a) + PublicDefs(b)
    decreases |a|
  {
    if |a| == 0 {
      assert a + b == b;
    } else {
      var ab := a + b;
      assert ab[0] == a[0] && ab[1..] == a[1..] + b;
      PublicDefsAppend(a[1..], b);
      var pa, pb := PublicDefs(a[1..]), PublicDefs(b);
      assert [a[0]] + (pa + pb) == ([a[0]] + pa) + pb;
    }
  }

  lemma PublicDefsSingle(m: DefMatch)
    ensures PublicDefs([m]) == (if IsPrivateName(m.name) then [] else [m])
  {
    assert [m][1..] == [];
  }

  /** One function record per match, tagged with the file and language. */
  function DefsAsFunctions(defs: seq<DefMatch>, file: string, language: string): (r: seq<FunctionInfo>)
    ensures |r| == |defs|
    ensures forall i :: 0 <= i < |r| ==>
      r[i] == FunctionInfo(defs[i].name, file, defs[i].params, language)
  {
    seq(|defs|, i requires 0 <= i < |defs| =>
      FunctionInfo(defs[i].name, file, defs[i].params, language))
  }

  /** One class record per match; a missing base group becomes "". */
  function MatchesAsClasses(ms: seq<ClassMatch>, file: string, language: string): (r: seq<ClassInfo>)
    ensures |r| == |ms|
    ensures forall i :: 0 <= i < |r| ==>
      r[i] == ClassInfo(ms[i].name, file, ms[i].base.GetOr(""), language)
  {
    seq(|ms|, i requires 0 <= i < |ms| =>
      ClassInfo(ms[i].name, file, ms[i].base.GetOr(""), language))
  }

  /** One record per named arrow function, with the sentinel parameter text. */
  function ArrowsAsFunctions(names: seq<string>, file: string): (r: seq<FunctionInfo>)
    ensures |r| == |names|
    ensures forall i :: 0 <= i < |r| ==>
      r[i] == FunctionInfo(names[i], file, ArrowParams, "JavaScript")
  {
    seq(|names|, i requires 0 <= i < |names| =>
      FunctionInfo(names[i], file, ArrowParams, "JavaScript"))
  }

  /** One record per extension function, named `Receiver.name`. */
  function ExtensionsAsFunctions(ms: seq<ExtensionMatch>, file: string): (r: seq<FunctionInfo>)
    ensures |r| == |ms|
    ensures forall i :: 0 <= i < |r| ==>
      r[i] == FunctionInfo(ms[i].receiver + "." + ms[i].name, file, ms[i].params, KotlinExtensionTag)
  {
    seq(|ms|, i requires 0 <= i < |ms| =>
      FunctionInfo(ms[i].receiver + "." + ms[i].name, file, ms[i].params, KotlinExtensionTag))
  }

  /** The records one extractor appends for one file, before appending. */
  function NewFunctions(lang: Language, scan: Scan, file: string): (r: seq<FunctionInfo>)
    ensures forall f :: f in r ==> f.file == file
  {
    match lang
    case Python => DefsAsFunctions(PublicDefs(scan.defs), file, "Python")
    case JavaScript =>
      DefsAsFunctions(scan.defs, file, "JavaScript") + ArrowsAsFunctions(scan.arrows, file)
    case Java => DefsAsFunctions(scan.defs, file, "Java")
    case Kotlin =>
      DefsAsFunctions(PublicDefs(scan.defs), file, "Kotlin") + ExtensionsAsFunctions(scan.extensions, file)
  }

  function LanguageTag(lang: Language): string {
    match lang
    case Python => "Python"
    case JavaScript => "JavaScript"
    case Java => "Java"
    case Kotlin => "Kotlin"
  }

  /** Runs the extractor for `lang` over the matches found in `file`,
      appending to the collections. */
  function Extract(lang: Language, acc: Collected, scan: Scan, file: string): (r: Collected)
    // append-only: earlier records are never changed or removed
    ensures acc.functions <= r.functions && acc.classes <= r.classes
    // one class record per class match, never a null inheritance
    ensures |r.classes| == |acc.classes| + |scan.classes|
    ensures var added := r.classes[|acc.classes|..];
      forall i :: 0 <= i < |scan.classes| ==>
        && added[i].name == scan.classes[i].name && added[i].file == file
        && added[i].language == LanguageTag(lang)
        && (scan.classes[i].base.None? ==> added[i].inheritance == "")
        && (scan.classes[i].base.Some? ==> added[i].inheritance == scan.classes[i].base.value)
    // every appended function belongs to `file`
    ensures forall f :: f in r.functions[|acc.functions|..] ==> f.file == file
  {
    var nf := NewFunctions(lang, scan, file);
    var nc := MatchesAsClasses(scan.classes, file, LanguageTag(lang));
    var r := Collected(acc.functions + nf, acc.classes + nc);
    assert r.functions[|acc.functions|..] == nf;
    assert r.classes[|acc.classes|..] == nc;
    r
  }

  /** The Python extractor appends one record per public function match,
      in match order, and drops the single-underscore ones. */
  lemma PythonFunctions(acc: Collected, scan: Scan, file: string)
    ensures var added := Extract(Python, acc, scan, file).functions[|acc.functions|..];
      var pub := PublicDefs(scan.defs);
      && |added| == |pub| <= |scan.defs|
      && (forall i :: 0 <= i < |pub| ==>
            added[i] == FunctionInfo(pub[i].name, file, pub[i].params, "Python"))
      && (forall f :: f in added <==>
            exists m :: (m in scan.defs && !IsPrivateName(m.name) &&
              f == FunctionInfo(m.name, file, m.params, "Python")))
  {
    var added := Extract(Python, acc, scan, file).functions[|acc.functions|..];
    var pub := PublicDefs(scan.defs);
    assert added == DefsAsFunctions(pub, file, "Python");
    forall f | f in added
      ensures exists m :: (m in scan.defs && !IsPrivateName(m.name) &&
        f == FunctionInfo(m.name, file, m.params, "Python"))
    {
      var i :| 0 <= i < |added| && added[i] == f;
      assert pub[i] in pub;
    }
    forall m | m in scan.defs && !IsPrivateName(m.name)
      ensures FunctionInfo(m.name, file, m.params, "Python") in added
    {
      assert m in pub;
      var i :| 0 <= i < |pub| && pub[i] == m;
      assert added[i] == FunctionInfo(m.name, file, m.params, "Python");
    }
  }

  /** The privacy filter on concrete names: `_helper` is dropped while
      `run` and the dunder name `__init__` are kept. */
  lemma PrivacyFilterExamples()
    ensures IsPrivateName("_helper") && IsPrivateName("_")
    ensures !IsPrivateName("__init__") && !IsPrivateName("run") && !IsPrivateName("__")
  {
    assert "_helper"[..1] == "_";
    assert "_"[..1] == "_";
    assert "__init__"[..2] == "__";
    assert "__"[..2] == "__";
    assert "_helper"[1] == 'h';
    assert "_helper"[..2][1] != "__"[1];
    assert "run"[0] == 'r' && "run"[..1][0] != "_"[0];
  }

  /** What an extractor appends for one file is exactly its new records. */
  lemma ExtractAdded(lang: Language, acc: Collected, scan: Scan, file: string)
    ensures Extract(lang, acc, scan, file).functions[|acc.functions|..] == NewFunctions(lang, scan, file)
  {
  }

  /** The JavaScript extractor appends the `function` matches, then the
      named arrow functions with the sentinel parameter text, all tagged
      JavaScript and none filtered. */
  lemma JavaScriptFunctions(acc: Collected, scan: Scan, file: string)
    ensures var added := Extract(JavaScript, acc, scan, file).functions[|acc.functions|..];
      && |added| == |scan.defs| + |scan.arrows|
      && (forall f :: f in added ==> f.language == "JavaScript" && f.file == file)
      && (forall i :: 0 <= i < |scan.defs| ==>
            added[i].name == scan.defs[i].name && added[i].params == scan.defs[i].params)
      && (forall i :: 0 <= i < |scan.arrows| ==>
            added[|scan.defs| + i].name == scan.arrows[i] &&
            added[|scan.defs| + i].params == "arrow function")
  {
    ExtractAdded(JavaScript, acc, scan, file);
    JavaScriptTags(scan, file);
    JavaScriptOrder(scan, file);
  }

  lemma JavaScriptTags(scan: Scan, file: string)
    ensures forall f: FunctionInfo :: f in NewFunctions(JavaScript, scan, file) ==> f.language == "JavaScript" && f.file == file
  {
    var plain := DefsAsFunctions(scan.defs, file, "JavaScript");
    var arrows := ArrowsAsFunctions(scan.arrows, file);
    var added := plain + arrows;
    forall f: FunctionInfo | f in added ensures f.language == "JavaScript" && f.file == file {
      var i :| 0 <= i < |added| && added[i] == f;
      if i >= |plain| {
        assert f == arrows[i - |plain|];
      }
    }
  }

  lemma JavaScriptOrder(scan: Scan, file: string)
    ensures var added := NewFunctions(JavaScript, scan, file);
      && |added| == |scan.defs| + |scan.arrows|
      && (forall i :: 0 <= i < |scan.defs| ==>
            added[i].name == scan.defs[i].name && added[i].params == scan.defs[i].params)
      && (forall i :: 0 <= i < |scan.arrows| ==>
            added[|scan.defs| + i].name == scan.arrows[i] &&
            added[|scan.defs| + i].params == "arrow function")
  {
    var plain := DefsAsFunctions(scan.defs, file, "JavaScript");
    var arrows := ArrowsAsFunctions(scan.arrows, file);
    forall i | 0 <= i < |scan.arrows|
      ensures (plain + arrows)[|scan.defs| + i] == arrows[i]
    {
    }
  }

  /** The Java extractor has no privacy filter: every method match is
      recorded, underscored names included, once and in match order. */
  lemma JavaFunctions(acc: Collected, scan: Scan, file: string)
    ensures var added := Extract(Java, acc, scan, file).functions[|acc.functions|..];
      && |added| == |scan.defs|
      && (forall i :: 0 <= i < |scan.defs| ==>
            added[i] == FunctionInfo(scan.defs[i].name, file, scan.defs[i].params, "Java"))
  {
    ExtractAdded(Java, acc, scan, file);
  }

  /** The Kotlin extractor appends one record per public plain-function
      match, in match order and tagged Kotlin, then one record per extension
      match, named `Receiver.name` and tagged as an extension; extension
      matches are not filtered for privacy. */
  lemma KotlinFunctions(acc: Collected, scan: Scan, file: string)
    ensures var added := Extract(Kotlin, acc, scan, file).functions[|acc.functions|..];
      var pub := PublicDefs(scan.defs);
      && |added| == |pub| + |scan.extensions|
      && (forall i :: 0 <= i < |pub| ==>
            added[i] == FunctionInfo(pub[i].name, file, pub[i].params, "Kotlin"))
      && (forall f :: f in added && f.language == "Kotlin" <==>
            exists m :: (m in scan.defs && !IsPrivateName(m.name) &&
              f == FunctionInfo(m.name, file, m.params, "Kotlin")))
      && (var tail := added[|pub|..];
          forall i :: 0 <= i < |scan.extensions| ==>
            var e := scan.extensions[i];
            tail[i] == FunctionInfo(e.receiver + "." + e.name, file, e.params, "Kotlin (Extension)"))
  {
    ExtractAdded(Kotlin, acc, scan, file);
    KotlinPlain(scan, file);
    KotlinExtensions(scan, file);
  }

  lemma KotlinPlain(scan: Scan, file: string)
    ensures forall f: FunctionInfo :: f in NewFunctions(Kotlin, scan, file) && f.language == "Kotlin" <==>
            exists m :: (m in scan.defs && !IsPrivateName(m.name) &&
              f == FunctionInfo(m.name, file, m.params, "Kotlin"))
  {
    var pub := PublicDefs(scan.defs);
    var plain := DefsAsFunctions(pub, file, "Kotlin");
    var exts := ExtensionsAsFunctions(scan.extensions, file);
    var added := plain + exts;
    assert |KotlinExtensionTag| != |"Kotlin"|;
    forall f: FunctionInfo | f in added && f.language == "Kotlin"
      ensures exists m :: (m in scan.defs && !IsPrivateName(m.name) &&
        f == FunctionInfo(m.name, file, m.params, "Kotlin"))
    {
      var i :| 0 <= i < |added| && added[i] == f;
      if i < |plain| {
        assert pub[i] in pub;
      }
    }
    forall m | m in scan.defs && !IsPrivateName(m.name)
      ensures FunctionInfo(m.name, file, m.params, "Kotlin") in added
    {
      assert m in pub;
      var i :| 0 <= i < |pub| && pub[i] == m;
      assert added[i] == FunctionInfo(m.name, file, m.params, "Kotlin");
    }
  }

  lemma KotlinExtensions(scan: Scan, file: string)
    ensures var added := NewFunctions(Kotlin, scan, file);
      var pub := PublicDefs(scan.defs);
      && |added| == |pub| + |scan.extensions|
      && (forall i :: 0 <= i < |pub| ==>
            added[i] == FunctionInfo(pub[i].name, file, pub[i].params, "Kotlin"))
      && (var tail := added[|pub|..];
          forall i :: 0 <= i < |scan.extensions| ==>
            var e := scan.extensions[i];
            tail[i] == FunctionInfo(e.receiver + "." + e.name, file, e.params, "Kotlin (Extension)"))
  {
    var plain := DefsAsFunctions(PublicDefs(scan.defs), file, "Kotlin");
    var exts := ExtensionsAsFunctions(scan.extensions, file);
    assert (plain + exts)[|plain|..] == exts;
    assert forall i :: 0 <= i < |plain| ==> (plain + exts)[i] == plain[i];
  }
}
