/** Heuristic technology detection, `extract_features`: every language of
    the repository is a feature, and so is every framework one of whose
    indicator strings occurs, ignoring case, in the text of the repository
    structure. How the structure is turned into text (Python's `str` of a
    dictionary) is not modelled: the text is an input. */
module Features {
  import opened Strings
  import opened RepoTree

  /** The framework table: name and indicator strings, in the analyzer's order. */
  const Frameworks: seq<(string, seq<string>)> := [
    ("Django", ["django", "settings.py", "wsgi.py"]),
    ("Flask", ["app.py", "flask", "routes.py"]),
    ("React", ["react", "jsx", "components"]),
    ("Angular", ["angular.json", "component.ts"]),
    ("Vue.js", ["vue.config.js", ".vue"]),
    ("Express.js", ["express", "routes", "app.js"]),
    ("Spring Boot", ["application.properties", "SpringApplication"]),
    ("Docker", ["Dockerfile", "docker-compose.yml"]),
    ("Kubernetes", ["k8s", "deployment.yaml"]),
    ("Next.js", ["next.config.js", "pages"]),
    ("GraphQL", ["graphql", "schema.graphql"]),
    ("TypeScript", ["tsconfig.json", ".ts"]),
    ("Jest", ["jest.config.js", "test.js"]),
    ("Pytest", ["pytest.ini", "test_"])
  ]

  /** Some indicator, lower-cased, occurs in the lower-cased text. */
  predicate Indicated(indicators: seq<string>, text: string) {
    exists i :: 0 <= i < |indicators| && Contains(Lower(text), Lower(indicators[i]))
  }

  /** `name` is a framework of the table with an indicator in `text`. */
  predicate FrameworkDetected(name: string, text: string) {
    exists k :: 0 <= k < |Frameworks| && Frameworks[k].0 == name && Indicated(Frameworks[k].1, text)
  }

  /** The inner loop over one framework's indicators, stopping at the
      first one found. */
  function FirstIndicator(indicators: seq<string>, lowered: string, i: nat): (found: bool)
    requires i <= |indicators|
    ensures found <==> exists j :: i <= j < |indicators| && Contains(lowered, Lower(indicators[j]))
    decreases |indicators| - i
  {
    if i == |indicators| then false
    else if Contains(lowered, Lower(indicators[i])) then true
    else FirstIndicator(indicators, lowered, i + 1)
  }

  /** The frameworks from entry `k` of a table on that are detected in
      `text`, in table order. */
  function DetectedFrom(table: seq<(string, seq<string>)>, text: string, k: nat): (r: seq<string>)
    requires k <= |table|
    ensures forall x :: x in r <==>
      exists m :: k <= m < |table| && table[m].0 == x && Indicated(table[m].1, text)
    decreases |table| - k
  {
    if k == |table| then []
    else
      var rest := DetectedFrom(table, text, k + 1);
      if FirstIndicator(table[k].1, Lower(text), 0) then [table[k].0] + rest else rest
  }

  /** No element occurs twice. */
  predicate NoDuplicates(s: seq<string>) {
    forall i, j :: 0 <= i < j < |s| ==> s[i] != s[j]
  }

  /** `list(set(xs))`, keeping first occurrences in order. */
  function Dedup(xs: seq<string>): (r: seq<string>)
    ensures NoDuplicates(r)
    ensures forall x :: x in r <==> x in xs
    ensures |r| <= |xs|
  {
    if |xs| == 0 then []
    else
      var rest := Dedup(xs[..|xs| - 1]);
      var last := xs[|xs| - 1];
      assert xs == xs[..|xs| - 1] + [last];
      if last in rest then rest else rest + [last]
  }

  /** `extract_features`: the languages, then the detected frameworks when
      the structure is non-empty, without duplicates. */
  function ExtractFeatures(languages: seq<string>, tree: Node, text: string): (r: seq<string>)
    ensures NoDuplicates(r)
    ensures forall x :: x in r <==>
      x in languages || (!IsEmpty(tree) && FrameworkDetected(x, text))
  {
    Dedup(languages + (if IsEmpty(tree) then [] else DetectedFrom(Frameworks, text, 0)))
  }

  lemma {:induction false} LowerIdempotent(s: string)
    ensures Lower(Lower(s)) == Lower(s)
  {
  }

  /** Detection ignores case: texts that agree once lower-cased give the
      same features. */
  lemma CaseInsensitive(languages: seq<string>, tree: Node, a: string, b: string)
    requires Lower(a) == Lower(b)
    ensures ExtractFeatures(languages, tree, a) == ExtractFeatures(languages, tree, b)
  {
    DetectedFromDependsOnLower(Frameworks, a, b, 0);
  }

  lemma {:induction false} DetectedFromDependsOnLower(table: seq<(string, seq<string>)>, a: string, b: string, k: nat)
    requires k <= |table|
    requires Lower(a) == Lower(b)
    ensures DetectedFrom(table, a, k) == DetectedFrom(table, b, k)
    decreases |table| - k
  {
    if k < |table| {
      DetectedFromDependsOnLower(table, a, b, k + 1);
    }
  }

  /** Lower-casing keeps an occurrence where it was. */
  lemma ContainsLower(s: string, n: string)
    requires Contains(s, n)
    ensures Contains(Lower(s), Lower(n))
  {
    var i :| 0 <= i <= |s| && IsPrefix(n, s[i..]);
    assert Lower(s)[i..][..|n|] == Lower(n);
    assert IsPrefix(Lower(n), Lower(s)[i..]);
  }

  lemma LanguageKept(languages: seq<string>, tree: Node, text: string, i: nat)
    requires i < |languages|
    ensures languages[i] in ExtractFeatures(languages, tree, text)
  {
  }

  /** With languages Python and JavaScript and a structure mentioning a
      Dockerfile, the features include both languages and Docker, each once. */
  lemma DockerfileExample(languages: seq<string>, tree: Node, text: string)
    requires languages == ["Python", "JavaScript"]
    requires !IsEmpty(tree)
    requires Contains(text, "Dockerfile")
    ensures "Python" in ExtractFeatures(languages, tree, text)
    ensures "JavaScript" in ExtractFeatures(languages, tree, text)
    ensures "Docker" in ExtractFeatures(languages, tree, text)
    ensures NoDuplicates(ExtractFeatures(languages, tree, text))
  {
    ContainsLower(text, "Dockerfile");
    var docker := Frameworks[7];
    assert docker == ("Docker", ["Dockerfile", "docker-compose.yml"]);
    assert Contains(Lower(text), Lower(docker.1[0]));
    assert Indicated(docker.1, text);
    assert FrameworkDetected("Docker", text);
    LanguageKept(languages, tree, text, 0);
    LanguageKept(languages, tree, text, 1);
  }
}
