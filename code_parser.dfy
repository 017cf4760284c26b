/**
 * The code extractor: fenced blocks in a model reply become code blocks with
 * a normalised language, a React-component flag and, for components, a name.
 */
module CodeParser {
  import opened Common
  import opened Strings
  import opened Fence

  /** The six languages a code block can carry. */
  datatype Language = Tsx | Jsx | TypeScript | JavaScript | Html | Css

  function LanguageName(l: Language): string {
    match l
    case Tsx => "tsx"
    case Jsx => "jsx"
    case TypeScript => "typescript"
    case JavaScript => "javascript"
    case Html => "html"
    case Css => "css"
  }

  datatype CodeBlock = CodeBlock(
    code: string,
    language: Language,
    hasReactComponent: bool,
    componentName: Option<string>)

  /** The tags the playground accepts, compared in lower case. */
  const SupportedTags: seq<string> := ["tsx", "jsx", "typescript", "javascript", "ts", "js", "html", "css"]

  predicate IsSupportedLanguage(lang: string) {
    Lower(lang) in SupportedTags
  }

  /** ts and js are expanded, the other four names are kept, anything else becomes tsx. */
  function NormalizeLanguage(lang: string): Language {
    var n := Lower(lang);
    if n == "ts" || n == "typescript" then TypeScript
    else if n == "js" || n == "javascript" then JavaScript
    else if n == "tsx" then Tsx
    else if n == "jsx" then Jsx
    else if n == "html" then Html
    else if n == "css" then Css
    else Tsx
  }

  /** Every language name normalises to itself, and the two short aliases to their long forms. */
  lemma NormalizeLanguageNames(l: Language)
    ensures NormalizeLanguage(LanguageName(l)) == l
    ensures IsSupportedLanguage(LanguageName(l))
    ensures NormalizeLanguage("ts") == TypeScript && NormalizeLanguage("js") == JavaScript
  {
    LowerOfLower(LanguageName(l));
    LowerOfLower("ts");
    LowerOfLower("js");
  }

  /** Normalisation and the whitelist ignore letter case. */
  lemma LanguageCaseInsensitive(lang: string)
    ensures NormalizeLanguage(Lower(lang)) == NormalizeLanguage(lang)
    ensures IsSupportedLanguage(Lower(lang)) == IsSupportedLanguage(lang)
  {
    LowerIdempotent(lang);
  }

  // ---------------------------------------------------------------------
  // The six component patterns, each a hand-written form of one regular
  // expression. `.` never crosses a line terminator; `[\s\S]` does.
  // ---------------------------------------------------------------------

  /** The lower-case word w occurs at i, letters compared without case as under the `i` flag. */
  predicate CiAt(s: string, i: int, w: string) {
    0 <= i && i + |w| <= |s| && Lower(s[i..i + |w|]) == w
  }

  predicate IsQuote(c: char) {
    c == '\'' || c == '"'
  }

  /** /import.*from.*['"]react['"]/i with `import` at i, `from` at j and the opening quote at k. */
  predicate ImportReactAt(s: string, i: int, j: int, k: int) {
    0 <= i && i + 6 <= j && j + 4 <= k && k + 7 <= |s| &&
    CiAt(s, i, "import") && CiAt(s, j, "from") &&
    IsQuote(s[k]) && CiAt(s, k + 1, "react") && IsQuote(s[k + 6]) &&
    NoLineBreak(s[i..k + 7])
  }

  predicate ImportsReact(s: string) {
    exists i, j, k | 0 <= i < |s| && 0 <= j < |s| && 0 <= k < |s| :: ImportReactAt(s, i, j, k)
  }

  /** /export\s+(default\s+)?function/i with `export` at i. */
  predicate ExportFunctionAt(s: string, i: int) {
    CiAt(s, i, "export") &&
    var a := WsRunEnd(s, i + 6);
    a > i + 6 &&
    (CiAt(s, a, "function") ||
     (CiAt(s, a, "default") && var b := WsRunEnd(s, a + 7); b > a + 7 && CiAt(s, b, "function")))
  }

  predicate ExportsFunction(s: string) {
    exists i | 0 <= i < |s| :: ExportFunctionAt(s, i)
  }

  /** /export\s+const.*=.*\(/i with `export` at i, `=` at j and `(` at k. */
  predicate ExportConstCallAt(s: string, i: int, j: int, k: int) {
    CiAt(s, i, "export") &&
    var a := WsRunEnd(s, i + 6);
    a > i + 6 && CiAt(s, a, "const") &&
    a + 5 <= j < k < |s| && s[j] == '=' && s[k] == '(' && NoLineBreak(s[a + 5..k])
  }

  predicate ExportsConstCall(s: string) {
    exists i, j, k | 0 <= i < |s| && 0 <= j < |s| && 0 <= k < |s| :: ExportConstCallAt(s, i, j, k)
  }

  /** /function.*\{[\s\S]*return\s*\(/i with `function` at i, `{` at j and `return` at k. */
  predicate FunctionReturnAt(s: string, i: int, j: int, k: int) {
    0 <= i && i + 8 <= j < k && k + 6 <= |s| &&
    CiAt(s, i, "function") && s[j] == '{' && NoLineBreak(s[i + 8..j]) && CiAt(s, k, "return") &&
    var l := WsRunEnd(s, k + 6);
    l < |s| && s[l] == '('
  }

  predicate FunctionReturnsParen(s: string) {
    exists i, j, k | 0 <= i < |s| && 0 <= j < |s| && 0 <= k < |s| :: FunctionReturnAt(s, i, j, k)
  }

  /** `\s*=>\s*\{` starting at p. */
  predicate ArrowBlockAt(s: string, p: nat)
    requires p <= |s|
  {
    var m := WsRunEnd(s, p);
    m + 2 <= |s| && s[m] == '=' && s[m + 1] == '>' &&
    var q := WsRunEnd(s, m + 2);
    q < |s| && s[q] == '{'
  }

  /** /(const|let|var).*=.*\(.*\)\s*=>\s*\{/i with the keyword at i, `=` at j, `(` at k and `)` at l. */
  predicate ArrowFunctionAt(s: string, i: int, j: int, k: int, l: int) {
    0 <= i < j < k < l < |s| &&
    ((CiAt(s, i, "const") && i + 5 <= j) || ((CiAt(s, i, "let") || CiAt(s, i, "var")) && i + 3 <= j)) &&
    s[j] == '=' && s[k] == '(' && s[l] == ')' && NoLineBreak(s[i..l]) && ArrowBlockAt(s, l + 1)
  }

  predicate DeclaresArrowFunction(s: string) {
    exists i, j, k, l | 0 <= i < |s| && 0 <= j < |s| && 0 <= k < |s| && 0 <= l < |s| ::
      ArrowFunctionAt(s, i, j, k, l)
  }

  /** /<[A-Z][\w]*[\s\S]*>/ (case-sensitive) with `<` at i and the closing `>` at j. */
  predicate JsxElementAt(s: string, i: int, j: int) {
    0 <= i && i + 2 <= j < |s| && s[i] == '<' && 'A' <= s[i + 1] <= 'Z' && s[j] == '>'
  }

  predicate HasJsxElement(s: string) {
    exists i, j | 0 <= i < |s| && 0 <= j < |s| :: JsxElementAt(s, i, j)
  }

  /** A block is a React component when any one of the six patterns matches its code. */
  predicate DetectReactComponent(code: string) {
    ImportsReact(code) || ExportsFunction(code) || ExportsConstCall(code) ||
    FunctionReturnsParen(code) || DeclaresArrowFunction(code) || HasJsxElement(code)
  }

  /**
   * Code without `(`, `<` and the keywords `import` and `export` (in any
   * case) matches none of the six patterns.
   */
  lemma PlainCodeIsNotComponent(s: string)
    requires '(' !in s && '<' !in s
    requires forall i :: !CiAt(s, i, "import") && !CiAt(s, i, "export")
    ensures !DetectReactComponent(s)
  {
  }

  // ---------------------------------------------------------------------
  // Component names: three case-sensitive patterns tried in order, each
  // taking its leftmost match.
  // ---------------------------------------------------------------------

  const DefaultFunctionWords: seq<string> := ["export", "default", "function"]
  const ExportConstWords: seq<string> := ["export", "const"]
  const FunctionWords: seq<string> := ["function"]

  /**
   * After the keyword just matched, ending at p: `\s+` and the next keyword,
   * and so on, and finally `\s+(\w+)`, whose capture is the name.
   */
  function NameAfter(s: string, p: nat, words: seq<string>): (r: Option<string>)
    requires p <= |s|
    ensures r.Some? ==> r.value != []
    decreases |words|
  {
    var a := WsRunEnd(s, p);
    if a == p then None
    else if words == [] then
      var e := WordRunEnd(s, a);
      if e == a then None else Some(s[a..e])
    else if OccursAt(s, words[0], a) then NameAfter(s, a + |words[0]|, words[1..])
    else None
  }

  /** The name pattern whose keywords are `words`, tried at exactly position i. */
  function NameAt(s: string, i: nat, words: seq<string>): (r: Option<string>)
    requires words != []
    ensures r.Some? ==> r.value != []
  {
    if OccursAt(s, words[0], i) then NameAfter(s, i + |words[0]|, words[1..]) else None
  }

  /** A captured name is a non-empty run of word characters. */
  lemma {:induction false} NameAfterIsWord(s: string, p: nat, words: seq<string>)
    requires p <= |s|
    ensures NameAfter(s, p, words).Some? ==> AllWordChars(NameAfter(s, p, words).value)
    decreases |words|
  {
    var a := WsRunEnd(s, p);
    if a != p {
      if words == [] {
        WordRunEndMax(s, a);
      } else if OccursAt(s, words[0], a) {
        NameAfterIsWord(s, a + |words[0]|, words[1..]);
      }
    }
  }

  /** The leftmost position at or after `from` where the name pattern matches. */
  function FirstName(s: string, from: nat, words: seq<string>): (r: Option<nat>)
    requires words != [] && words[0] != []
    ensures r.Some? ==> from <= r.value && NameAt(s, r.value, words).Some?
    decreases |s| - from
  {
    if from >= |s| then None
    else if NameAt(s, from, words).Some? then Some(from)
    else FirstName(s, from + 1, words)
  }

  /** No position before the one found matches. */
  lemma {:induction false} FirstNameLeftmost(s: string, from: nat, words: seq<string>)
    requires words != [] && words[0] != []
    ensures FirstName(s, from, words).Some? ==>
      forall i :: from <= i < FirstName(s, from, words).value ==> NameAt(s, i, words).None?
    decreases |s| - from
  {
    if from < |s| && NameAt(s, from, words).None? {
      FirstNameLeftmost(s, from + 1, words);
    }
  }

  /** When nothing is found, no position from `from` on matches. */
  lemma {:induction false} FirstNameNone(s: string, from: nat, words: seq<string>)
    requires words != [] && words[0] != []
    ensures FirstName(s, from, words).None? ==> forall i :: from <= i ==> NameAt(s, i, words).None?
    decreases |s| - from
  {
    if from < |s| && NameAt(s, from, words).None? {
      FirstNameNone(s, from + 1, words);
    }
  }

  /** `code.match(pattern)?.[1]`: the capture of the leftmost match. */
  function MatchName(s: string, words: seq<string>): Option<string>
    requires words != [] && words[0] != []
  {
    match FirstName(s, 0, words)
    case None => None
    case Some(i) => NameAt(s, i, words)
  }

  /** The component name: `export default function X`, else `export const X`, else `function X`. */
  function ExtractComponentName(code: string): (r: Option<string>)
    ensures r.Some? ==> r.value != []
  {
    var d := MatchName(code, DefaultFunctionWords);
    if d.Some? then d
    else
      var c := MatchName(code, ExportConstWords);
      if c.Some? then c else MatchName(code, FunctionWords)
  }

  /** Every name found is a non-empty identifier made of word characters. */
  lemma ComponentNameIsWord(code: string)
    ensures ExtractComponentName(code).Some? ==>
      ExtractComponentName(code).value != [] && AllWordChars(ExtractComponentName(code).value)
  {
    var d := FirstName(code, 0, DefaultFunctionWords);
    var c := FirstName(code, 0, ExportConstWords);
    var f := FirstName(code, 0, FunctionWords);
    if d.Some? {
      NameAfterIsWord(code, d.value + 6, DefaultFunctionWords[1..]);
    }
    if c.Some? {
      NameAfterIsWord(code, c.value + 6, ExportConstWords[1..]);
    }
    if f.Some? {
      NameAfterIsWord(code, f.value + 8, FunctionWords[1..]);
    }
  }

  /** Wherever a default-exported function is named, the name is that of the leftmost one. */
  lemma DefaultFunctionNameWins(code: string, i: nat)
    requires NameAt(code, i, DefaultFunctionWords).Some?
    ensures exists j :: 0 <= j <= i && ExtractComponentName(code) == NameAt(code, j, DefaultFunctionWords)
  {
    FirstNameNone(code, 0, DefaultFunctionWords);
    FirstNameLeftmost(code, 0, DefaultFunctionWords);
    var j := FirstName(code, 0, DefaultFunctionWords).value;
    assert j <= i;
  }

  /** Without a default-exported function, an exported constant's name beats a plain function's. */
  lemma ExportConstNameWins(code: string, i: nat)
    requires forall j :: NameAt(code, j, DefaultFunctionWords).None?
    requires NameAt(code, i, ExportConstWords).Some?
    ensures exists j :: 0 <= j <= i && ExtractComponentName(code) == NameAt(code, j, ExportConstWords)
  {
    FirstNameNone(code, 0, ExportConstWords);
    FirstNameLeftmost(code, 0, ExportConstWords);
    var j := FirstName(code, 0, ExportConstWords).value;
    assert j <= i;
    assert MatchName(code, DefaultFunctionWords).None?;
  }

  /** No name at all exactly when none of the three patterns matches anywhere. */
  lemma NoComponentName(code: string)
    ensures ExtractComponentName(code).None? <==>
      forall i: nat :: NameAt(code, i, DefaultFunctionWords).None? &&
        NameAt(code, i, ExportConstWords).None? && NameAt(code, i, FunctionWords).None?
  {
    FirstNameNone(code, 0, DefaultFunctionWords);
    FirstNameNone(code, 0, ExportConstWords);
    FirstNameNone(code, 0, FunctionWords);
  }

  lemma CiAtExact(s: string, i: nat, w: string)
    requires OccursAt(s, w, i) && Lower(w) == w
    ensures CiAt(s, i, w)
  {
  }

  /** The keywords of the component patterns are written in lower case. */
  lemma KeywordsLower()
    ensures Lower("export") == "export" && Lower("default") == "default"
    ensures Lower("function") == "function"
  {
    LowerOfLower("export");
    LowerOfLower("default");
    LowerOfLower("function");
  }

  /** One keyword step of a successful name match. */
  lemma NameAfterStep(s: string, p: nat, words: seq<string>)
    requires p <= |s| && words != [] && NameAfter(s, p, words).Some?
    ensures WsRunEnd(s, p) > p && OccursAt(s, words[0], WsRunEnd(s, p))
    ensures NameAfter(s, WsRunEnd(s, p) + |words[0]|, words[1..]) == NameAfter(s, p, words)
  {
  }

  /** Where `export default function <name>` matches, its three keywords are separated by whitespace. */
  lemma DefaultFunctionShape(code: string, i: nat)
    requires NameAt(code, i, DefaultFunctionWords).Some?
    ensures OccursAt(code, "export", i)
    ensures var a := WsRunEnd(code, i + 6);
      a > i + 6 && OccursAt(code, "default", a) &&
      var b := WsRunEnd(code, a + 7);
      b > a + 7 && OccursAt(code, "function", b)
  {
    var words := DefaultFunctionWords;
    assert words[0] == "export" && words[1] == "default" && words[2] == "function";
    ThreeWordShape(code, i, words);
  }

  /** A match of a three-keyword pattern: the keywords in order, whitespace between them. */
  lemma ThreeWordShape(s: string, i: nat, words: seq<string>)
    requires |words| == 3 && words[0] != [] && NameAt(s, i, words).Some?
    ensures OccursAt(s, words[0], i)
    ensures var a := WsRunEnd(s, i + |words[0]|);
      a > i + |words[0]| && OccursAt(s, words[1], a) &&
      var b := WsRunEnd(s, a + |words[1]|);
      b > a + |words[1]| && OccursAt(s, words[2], b)
  {
    NameAfterStep(s, i + |words[0]|, words[1..]);
    var a := WsRunEnd(s, i + |words[0]|);
    assert words[1..][1..] == words[2..];
    NameAfterStep(s, a + |words[1]|, words[2..]);
  }

  /** A default-exported function's name implies the second component pattern matches there. */
  lemma DefaultFunctionIsExport(code: string, i: nat)
    requires NameAt(code, i, DefaultFunctionWords).Some?
    ensures ExportFunctionAt(code, i)
  {
    DefaultFunctionShape(code, i);
    var a := WsRunEnd(code, i + 6);
    KeywordsLower();
    CiAtExact(code, i, "export");
    CiAtExact(code, a, "default");
    CiAtExact(code, WsRunEnd(code, a + 7), "function");
  }

  lemma DefaultFunctionIsComponent(code: string, i: nat)
    requires NameAt(code, i, DefaultFunctionWords).Some?
    ensures DetectReactComponent(code)
  {
    DefaultFunctionIsExport(code, i);
    assert i < |code|;
    assert ExportsFunction(code);
  }

  /** The text `export default function <name>` and what follows it. */
  function DefaultExport(name: string, rest: string): string {
    "export default function " + name + rest
  }

  /** The converse step: whitespace and the next keyword pass the match on. */
  lemma NameAfterIntro(s: string, p: nat, words: seq<string>)
    requires p <= |s| && words != []
    requires WsRunEnd(s, p) > p && OccursAt(s, words[0], WsRunEnd(s, p))
    ensures NameAfter(s, p, words) == NameAfter(s, WsRunEnd(s, p) + |words[0]|, words[1..])
  {
  }

  /** The keywords of `export default function ` sit where they should. */
  lemma DefaultExportKeywords(name: string, rest: string)
    ensures var s := DefaultExport(name, rest);
      OccursAt(s, "export", 0) && WsRunEnd(s, 6) == 7 &&
      OccursAt(s, "default", 7) && WsRunEnd(s, 14) == 15 &&
      OccursAt(s, "function", 15) && s[23] == ' '
  {
    var s := DefaultExport(name, rest);
    assert s[..24] == "export default function ";
  }

  /** After the last keyword, the name is the whole word-character run. */
  lemma DefaultExportCapture(name: string, rest: string)
    requires name != [] && AllWordChars(name)
    requires rest == [] || !IsWordChar(rest[0])
    ensures NameAfter(DefaultExport(name, rest), 23, []) == Some(name)
  {
    var s := DefaultExport(name, rest);
    DefaultExportKeywords(name, rest);
    assert s[24..24 + |name|] == name;
    assert s[24] == name[0];
    assert WsRunEnd(s, 23) == 24;
    forall k | 24 <= k < 24 + |name| ensures IsWordChar(s[k]) {
      assert s[k] == name[k - 24];
    }
    if rest != [] {
      assert s[24 + |name|] == rest[0];
    }
    WordRunEndMax(s, 24);
  }

  lemma DefaultExportNameAt(name: string, rest: string)
    requires name != [] && AllWordChars(name)
    requires rest == [] || !IsWordChar(rest[0])
    ensures NameAt(DefaultExport(name, rest), 0, DefaultFunctionWords) == Some(name)
  {
    var s := DefaultExport(name, rest);
    DefaultExportKeywords(name, rest);
    DefaultExportCapture(name, rest);
    assert ["function"][1..] == [];
    NameAfterIntro(s, 14, ["function"]);
    assert ["default", "function"][1..] == ["function"];
    NameAfterIntro(s, 6, ["default", "function"]);
    assert DefaultFunctionWords[0] == "export" && DefaultFunctionWords[1..] == ["default", "function"];
  }

  /** `export default function <name>` followed by a non-word character names the component. */
  lemma DefaultExportNamed(name: string, rest: string)
    requires name != [] && AllWordChars(name)
    requires rest == [] || !IsWordChar(rest[0])
    ensures ExtractComponentName(DefaultExport(name, rest)) == Some(name)
    ensures DetectReactComponent(DefaultExport(name, rest))
  {
    var s := DefaultExport(name, rest);
    DefaultExportNameAt(name, rest);
    assert FirstName(s, 0, DefaultFunctionWords) == Some(0);
    DefaultFunctionIsComponent(s, 0);
  }

  // ---------------------------------------------------------------------
  // Blocks
  // ---------------------------------------------------------------------

  /** `(match[1] || 'typescript').toLowerCase()`: an absent tag reads as typescript. */
  function TagLanguage(tag: string): string {
    Lower(if tag == [] then "typescript" else tag)
  }

  /** The block one fence contributes, if its language is supported. */
  function BlockOf(tag: string, body: string): Option<CodeBlock> {
    var language := TagLanguage(tag);
    if IsSupportedLanguage(language) then
      var code := Trim(body);
      var hasReactComponent := DetectReactComponent(code);
      Some(CodeBlock(code, NormalizeLanguage(language), hasReactComponent,
        if hasReactComponent then ExtractComponentName(code) else None))
    else None
  }

  /** One loop iteration: the prose skipped before a fence plays no part. */
  function BlockStep(skipped: string, tag: string, body: string): seq<CodeBlock> {
    match BlockOf(tag, body)
    case Some(b) => [b]
    case None => []
  }

  /** After the last fence nothing more is collected. */
  function NoBlocks(rest: string): seq<CodeBlock> {
    []
  }

  /** The blocks of every fence, in order: what `extractCodeBlocks` returns. */
  function CodeBlocks(content: string): seq<CodeBlock> {
    Collect(content, 0, BlockStep, NoBlocks)
  }

  /** The `while (exec)` loop of the extractor. */
  method ExtractCodeBlocks(content: string) returns (codeBlocks: seq<CodeBlock>)
    ensures codeBlocks == CodeBlocks(content)
  {
    codeBlocks := [];
    var lastIndex: nat := 0;
    var found := NextMatch(content, lastIndex);
    while found.Some?
      invariant lastIndex <= |content|
      invariant found == NextMatch(content, lastIndex)
      invariant codeBlocks + Collect(content, lastIndex, BlockStep, NoBlocks) == CodeBlocks(content)
      decreases |content| - lastIndex
    {
      var m := found.value;
      ghost var produced := BlockStep(content[lastIndex..m.start], m.tag, m.body);
      ghost var later := Collect(content, m.end, BlockStep, NoBlocks);
      ghost var before := codeBlocks;
      assert Collect(content, lastIndex, BlockStep, NoBlocks) == produced + later;
      var language := TagLanguage(m.tag);
      var code := Trim(m.body);
      if IsSupportedLanguage(language) {
        var hasReactComponent := DetectReactComponent(code);
        var componentName := if hasReactComponent then ExtractComponentName(code) else None;
        assert produced == [CodeBlock(code, NormalizeLanguage(language), hasReactComponent, componentName)];
        codeBlocks := codeBlocks + [CodeBlock(code, NormalizeLanguage(language), hasReactComponent, componentName)];
      } else {
        assert produced == [];
      }
      assert codeBlocks == before + produced;
      AppendAssoc(before, produced, later);
      lastIndex := m.end;
      found := NextMatch(content, lastIndex);
    }
  }

  /**
   * What each block says about its fence: the body trimmed, the tag
   * normalised, the component flag, and a name only for components.
   */
  lemma BlockOfFence(tag: string, body: string)
    ensures BlockOf(tag, body).Some? <==> IsSupportedLanguage(TagLanguage(tag))
    ensures BlockOf(tag, body).Some? ==>
      var b := BlockOf(tag, body).value;
      b.code == Trim(body) && Trimmed(b.code) &&
      b.language == NormalizeLanguage(TagLanguage(tag)) &&
      b.hasReactComponent == DetectReactComponent(b.code) &&
      (b.componentName.Some? ==> b.hasReactComponent && b.componentName == ExtractComponentName(b.code))
    ensures tag == [] ==> BlockOf(tag, body).Some? && BlockOf(tag, body).value.language == TypeScript
  {
    TrimIsTrimmed(body);
    LowerOfLower("typescript");
  }

  /** Prose without a backtick in front of the text contributes no block. */
  lemma ProsePrefix(t: string, rest: string)
    requires '`' !in t
    ensures CodeBlocks(t + rest) == CodeBlocks(rest)
  {
    var s := t + rest;
    forall k | 0 <= k < |t| ensures s[k] != '`' {
      assert s[k] == t[k];
    }
    NoBacktickNoMatch(s, |t|);
    NextMatchSkip(s, 0, |t|);
    CollectSuffix(s, |t|, 0, BlockStep, NoBlocks);
    assert s[|t|..] == rest;
  }

  /**
   * A closed fence in front of the text contributes its own block (or none,
   * for an unsupported language), and the text after it is parsed on its own.
   */
  lemma LeadingFence(tag: string, body: string, rest: string)
    requires AllWordChars(tag) && NoMarker(body)
    requires body == [] || body[|body| - 1] != '`'
    ensures CodeBlocks(FenceText(tag, body) + rest) == BlockStep("", tag, body) + CodeBlocks(rest)
  {
    CollectLeadingFence(tag, body, rest, BlockStep, NoBlocks);
  }

  /** A fence tagged with an unsupported language contributes nothing. */
  lemma UnsupportedBlock(skipped: string, tag: string, body: string)
    requires !IsSupportedLanguage(TagLanguage(tag))
    ensures BlockStep(skipped, tag, body) == []
  {
  }

  /** A fence tagged with an unsupported language, such as python, is skipped entirely. */
  lemma UnsupportedFenceSkipped(tag: string, body: string, rest: string)
    requires AllWordChars(tag) && !IsSupportedLanguage(TagLanguage(tag))
    requires NoMarker(body) && (body == [] || body[|body| - 1] != '`')
    ensures CodeBlocks(FenceText(tag, body) + rest) == CodeBlocks(rest)
  {
    LeadingFence(tag, body, rest);
    UnsupportedBlock("", tag, body);
  }

  /** python, rust and shell are not on the whitelist. */
  lemma UnsupportedTags()
    ensures !IsSupportedLanguage(TagLanguage("python"))
    ensures !IsSupportedLanguage(TagLanguage("rust"))
    ensures !IsSupportedLanguage(TagLanguage("bash"))
  {
    LowerOfLower("python");
    LowerOfLower("rust");
    LowerOfLower("bash");
  }

  /** An untagged fence yields a typescript block holding the trimmed body, whatever follows it. */
  lemma UntaggedFenceIsTypeScript(body: string, rest: string)
    requires NoMarker(body) && (body == [] || body[|body| - 1] != '`')
    ensures |CodeBlocks(FenceText("", body) + rest)| == 1 + |CodeBlocks(rest)|
    ensures CodeBlocks(FenceText("", body) + rest)[0].language == TypeScript
    ensures CodeBlocks(FenceText("", body) + rest)[0].code == Trim(body)
  {
    LeadingFence("", body, rest);
    BlockOfFence("", body);
  }

  /** A fence that is opened and never closed yields no block. */
  lemma UnterminatedFence(t: string, u: string)
    requires '`' !in t && '`' !in u
    ensures CodeBlocks(t + "```" + u) == []
  {
    var s := t + "```" + u;
    forall p, q | MarkerAt(s, p) && MarkerAt(s, q) ensures q < p + 4 {
      MarkerPosition(t, u, p);
      MarkerPosition(t, u, q);
    }
    NoClosingMarkerNoMatch(s, 0);
    NoMatchNoBlock(s);
  }

  /** In prose, three backticks and more prose, the backticks are the only marker. */
  lemma MarkerPosition(t: string, u: string, p: int)
    requires '`' !in t && '`' !in u
    ensures MarkerAt(t + "```" + u, p) ==> p == |t|
  {
    var s := t + "```" + u;
    if 0 <= p < |t| {
      assert s[p] == t[p];
    } else if |t| < p && p + 3 <= |s| {
      assert s[p + 2] == u[p + 2 - |t| - 3];
    }
  }

  lemma NoMatchNoBlock(s: string)
    requires MatchesFrom(s, 0) == []
    ensures CodeBlocks(s) == []
  {
  }

  /** Some block is a component. */
  predicate AnyComponent(blocks: seq<CodeBlock>) {
    exists i | 0 <= i < |blocks| :: blocks[i].hasReactComponent
  }

  /** The index of the first component block. */
  function FirstComponent(blocks: seq<CodeBlock>): (r: Option<nat>)
    ensures r.Some? ==> r.value < |blocks| && blocks[r.value].hasReactComponent
    ensures r.Some? ==> forall j :: 0 <= j < r.value ==> !blocks[j].hasReactComponent
    ensures r.None? <==> !AnyComponent(blocks)
  {
    if blocks == [] then None
    else if blocks[0].hasReactComponent then Some(0)
    else
      match FirstComponent(blocks[1..])
      case None => None
      case Some(i) => Some(i + 1)
  }

  /** `blocks.some(block => block.hasReactComponent)`. */
  function ShouldShowPlayground(content: string): (r: bool)
    ensures r <==> AnyComponent(CodeBlocks(content))
  {
    FirstComponent(CodeBlocks(content)).Some?
  }

  /** The first component block, else the first block, else nothing. */
  function GetPrimaryCodeBlock(content: string): (r: Option<CodeBlock>)
    ensures var blocks := CodeBlocks(content);
      (r.None? <==> blocks == []) &&
      (AnyComponent(blocks) ==>
        (r.Some? && r.value.hasReactComponent &&
         exists i | 0 <= i < |blocks| :: blocks[i] == r.value &&
           forall j :: 0 <= j < i ==> !blocks[j].hasReactComponent)) &&
      (!AnyComponent(blocks) && blocks != [] ==> r == Some(blocks[0]))
  {
    var blocks := CodeBlocks(content);
    match FirstComponent(blocks)
    case Some(i) => Some(blocks[i])
    case None => if blocks == [] then None else Some(blocks[0])
  }
}
