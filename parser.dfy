/** internal/parser/parser.go: a playbook file is a frontmatter block between
    `---` lines followed by a Markdown body. The YAML decoder is a parameter
    (`FrontmatterDecoder`): it turns the frontmatter text into the three
    recognised keys or fails. */
module Parser {
  import opened Wrappers
  import opened Text

  /** Where a document came from. Go declares it as an `int`, so values other
      than the two constants exist and print as "unknown". */
  type Source = int

  const SourceGlobal: Source := 0
  const SourceProjectScoped: Source := 1

  /** `Source.String`. */
  function SourceString(s: Source): (r: string)
    ensures r == "global" <==> s == SourceGlobal
    ensures r == "project" <==> s == SourceProjectScoped
    ensures r == "unknown" <==> s != SourceGlobal && s != SourceProjectScoped
  {
    if s == SourceGlobal then "global"
    else if s == SourceProjectScoped then "project"
    else "unknown"
  }

  datatype Document = Document(
    name: string,         // from the frontmatter, else the file name
    description: string,  // mandatory
    required: bool,       // default true; consulted for global documents only
    content: string,      // the Markdown body
    source: Source,
    filePath: string)

  /** What `yaml.Unmarshal` puts into the frontmatter struct: `required` is a
      `*bool` in Go, so "absent" and "false" differ. */
  datatype Meta = Meta(name: string, description: string, required: Option<bool>)

  type FrontmatterDecoder = string -> Result<Meta>

  // ---------------------------------------------------------------- extractFrontmatter

  const MissingOpening := "missing frontmatter delimiter at start"
  const MissingClosing := "missing closing frontmatter delimiter"

  predicate HasOpening(content: string) {
    HasPrefix(content, "---\n") || HasPrefix(content, "---\r\n")
  }

  /** Where the frontmatter starts: after "---\r\n" or after "---\n". */
  function Start(content: string): (start: nat)
    ensures start <= |content| || !HasOpening(content)
  {
    if HasPrefix(content, "---\r\n") then 5 else 4
  }

  /** The bytes the body-skip loop passes over after the frontmatter. */
  predicate IsDelimiterByte(c: char) {
    c == '\n' || c == '\r' || c == '-'
  }

  /** The first index `>= i` whose byte is not a delimiter byte, or `|content|`. */
  function SkipDelimiterBytes(content: string, i: nat): (j: nat)
    requires i <= |content|
    ensures i <= j <= |content|
    ensures forall k :: i <= k < j ==> IsDelimiterByte(content[k])
    ensures j == |content| || !IsDelimiterByte(content[j])
    decreases |content| - i
  {
    if i < |content| && IsDelimiterByte(content[i]) then SkipDelimiterBytes(content, i + 1) else i
  }

  /** The length of the frontmatter inside `rem` (the text after the opening
      line): the first "\n---\n", else the first "\r\n---\r\n", else the first
      "\n---\r\n", else a closing "\n---" or "\r\n---" at the very end. */
  function ClosingIndex(rem: string): (r: Option<nat>)
    ensures r.Some? ==> r.value <= |rem|
  {
    var lf := Index(rem, "\n---\n");
    if lf != -1 then Some(lf)
    else
      var crlf := Index(rem, "\r\n---\r\n");
      if crlf != -1 then Some(crlf)
      else
        var mixed := Index(rem, "\n---\r\n");
        if mixed != -1 then Some(mixed)
        else if HasSuffix(rem, "\n---") then Some(|rem| - 4)
        else if HasSuffix(rem, "\r\n---") then Some(|rem| - 5)
        else None
  }

  /** The trimmed body that starts after the delimiter bytes at `from`. */
  function BodyFrom(content: string, from: nat): string
    requires from <= |content|
  {
    var b := SkipDelimiterBytes(content, from);
    if b < |content| then TrimSpace(content[b..]) else ""
  }

  /** The result of `extractFrontmatter`: the frontmatter and the trimmed body. */
  function Frontmatter(content: string): Result<(string, string)> {
    if !HasOpening(content) then Failure(MissingOpening)
    else
      var start := Start(content);
      match ClosingIndex(content[start..])
      case None => Failure(MissingClosing)
      case Some(e) => Success((content[start..start + e], BodyFrom(content, start + e)))
  }

  /** `extractFrontmatter`. The three steps of the source (the opening line,
      the closing search, the body-skip loop) are the three methods below. */
  method ExtractFrontmatter(content: string) returns (r: Result<(string, string)>)
    ensures r == Frontmatter(content)
  {
    var start := OpeningLength(content);
    if start.None? {
      return Failure(MissingOpening);
    }
    var remaining := content[start.value..];
    var endDelimIndex := FindClosing(remaining);
    if endDelimIndex.None? {
      return Failure(MissingClosing);
    }
    var frontmatter := remaining[..endDelimIndex.value];
    assert frontmatter == content[start.value..start.value + endDelimIndex.value];
    var body := SkipToBody(content, start.value + endDelimIndex.value);
    return Success((frontmatter, body));
  }

  /** The opening-line check; `None` is the "missing delimiter at start" exit. */
  method OpeningLength(content: string) returns (r: Option<nat>)
    ensures r.Some? <==> HasOpening(content)
    ensures r.Some? ==> r.value == Start(content) <= |content|
  {
    if !HasPrefix(content, "---\n") && !HasPrefix(content, "---\r\n") {
      return None;
    }
    var start := 3;
    if HasPrefix(content, "---\r\n") {
      start := 5;
    } else {
      start := 4;  // "---\n"
    }
    return Some(start);
  }

  /** The chain of closing-delimiter searches. */
  method FindClosing(remaining: string) returns (r: Option<nat>)
    ensures r == ClosingIndex(remaining)
  {
    var endDelimIndex := Index(remaining, "\n---\n");
    if endDelimIndex == -1 {
      endDelimIndex := Index(remaining, "\r\n---\r\n");
      if endDelimIndex == -1 {
        endDelimIndex := Index(remaining, "\n---\r\n");
        if endDelimIndex == -1 {
          if HasSuffix(remaining, "\n---") {
            endDelimIndex := |remaining| - 4;
          } else if HasSuffix(remaining, "\r\n---") {
            endDelimIndex := |remaining| - 5;
          } else {
            return None;
          }
        }
      }
    }
    return Some(endDelimIndex);
  }

  /** The body-skip loop followed by the trim. */
  method SkipToBody(content: string, from: nat) returns (body: string)
    requires from <= |content|
    ensures body == BodyFrom(content, from)
  {
    var bodyStartIndex := from;
    while bodyStartIndex < |content| && IsDelimiterByte(content[bodyStartIndex])
      invariant from <= bodyStartIndex <= |content|
      invariant SkipDelimiterBytes(content, bodyStartIndex) == SkipDelimiterBytes(content, from)
      decreases |content| - bodyStartIndex
    {
      bodyStartIndex := bodyStartIndex + 1;
    }
    body := "";
    if bodyStartIndex < |content| {
      body := TrimSpace(content[bodyStartIndex..]);
    }
  }

  /** The closing search fails exactly when none of the three closing
      patterns occurs and the text ends in neither "\n---" nor "\r\n---". */
  lemma ClosingIndexNone(rem: string)
    ensures ClosingIndex(rem).None? <==>
      (forall j :: !OccursAt(rem, "\n---\n", j)) &&
      (forall j :: !OccursAt(rem, "\r\n---\r\n", j)) &&
      (forall j :: !OccursAt(rem, "\n---\r\n", j)) &&
      !HasSuffix(rem, "\n---") && !HasSuffix(rem, "\r\n---")
  {
  }

  /** A found frontmatter end is followed by "\n---" or "\r\n---"; when
      "\n---\n" occurs at all, the end is its first occurrence. */
  lemma ClosingIndexDelimited(rem: string)
    requires ClosingIndex(rem).Some?
    ensures var e := ClosingIndex(rem).value;
      HasPrefix(rem[e..], "\n---") || HasPrefix(rem[e..], "\r\n---")
    ensures (exists j :: OccursAt(rem, "\n---\n", j)) ==>
      var e := ClosingIndex(rem).value;
      OccursAt(rem, "\n---\n", e) && forall j :: 0 <= j < e ==> !OccursAt(rem, "\n---\n", j)
  {
    var e := ClosingIndex(rem).value;
    if Index(rem, "\n---\n") != -1 {
      assert rem[e..][..4] == rem[e..e + 5][..4];
    } else if Index(rem, "\r\n---\r\n") != -1 {
      assert rem[e..][..5] == rem[e..e + 7][..5];
    } else if Index(rem, "\n---\r\n") != -1 {
      assert rem[e..][..4] == rem[e..e + 6][..4];
    }
  }

  /** Extraction fails exactly when the opening line is missing or the
      closing search finds nothing, and says which. */
  lemma FrontmatterFailure(content: string)
    ensures Frontmatter(content).Failure? <==>
      !HasOpening(content) || ClosingIndex(content[Start(content)..]).None?
    ensures !HasOpening(content) ==> Frontmatter(content) == Failure(MissingOpening)
    ensures HasOpening(content) && ClosingIndex(content[Start(content)..]).None? ==>
      Frontmatter(content) == Failure(MissingClosing)
  {
  }

  /** On success the frontmatter is the text between the opening line and a
      closing "\n---" or "\r\n---". */
  lemma FrontmatterSlice(content: string)
    requires Frontmatter(content).Success?
    ensures HasOpening(content)
    ensures var start := Start(content);
      var e := ClosingIndex(content[start..]).value;
      e <= |content| - start &&
      Frontmatter(content).value.0 == content[start..start + e] &&
      (HasPrefix(content[start + e..], "\n---") || HasPrefix(content[start + e..], "\r\n---"))
  {
    var start := Start(content);
    var rem := content[start..];
    ClosingIndexDelimited(rem);
    assert content[start + ClosingIndex(rem).value..] == rem[ClosingIndex(rem).value..];
  }

  /** The body is the trimmed text from the first index at or after `from`
      whose byte is not '\n', '\r' or '-'; empty if every remaining byte is
      one of those. */
  lemma BodyFromFirstOther(content: string, from: nat, b: nat)
    requires from <= b <= |content|
    requires forall k :: from <= k < b ==> IsDelimiterByte(content[k])
    requires b == |content| || !IsDelimiterByte(content[b])
    ensures BodyFrom(content, from) == if b < |content| then TrimSpace(content[b..]) else ""
  {
    var j := SkipDelimiterBytes(content, from);
    assert b == j;
  }

  /** The "\r\n---" suffix branch of the closing search never runs: any text
      ending in "\r\n---" also ends in "\n---", which is checked first, so for
      such a file the frontmatter keeps its final '\r'. */
  lemma CrlfSuffixBranchUnreachable(rem: string)
    requires HasSuffix(rem, "\r\n---")
    ensures HasSuffix(rem, "\n---")
    ensures ClosingIndex(rem).Some?
  {
    assert rem[|rem| - 4..] == rem[|rem| - 5..][1..];
  }

  /** The closing search on the text after the opening line of the example
      below: the LF delimiter at 9 is taken. */
  lemma MixedClosingIndex()
    ensures ClosingIndex("d\r\n---\r\nb\n---\nc") == Some(9)
  {
    var rem := "d\r\n---\r\nb\n---\nc";
    assert rem[9..14] == "\n---\n";
    assert OccursAt(rem, "\n---\n", 9);
    var lf := Index(rem, "\n---\n");
    assert lf != -1 && lf <= 9;
    assert rem[lf] == rem[lf..lf + 5][0] == '\n';
    assert rem[lf + 4] == rem[lf..lf + 5][4] == '\n';
  }

  /** With mixed line endings the first closing line is not what ends the
      frontmatter: "\n---\n" is searched for over the whole rest before
      "\r\n---\r\n" is tried, so a later LF delimiter wins and the CRLF
      closing line ends up inside the frontmatter. */
  lemma MixedLineEndingsOverrun()
    ensures var c := "---\r\nd\r\n---\r\nb\n---\nc";
      Frontmatter(c).Success? && Frontmatter(c).value.0 == "d\r\n---\r\nb"
  {
    var rem := "d\r\n---\r\nb\n---\nc";
    assert "---\r\n" + rem == "---\r\nd\r\n---\r\nb\n---\nc";
    assert rem[..9] == "d\r\n---\r\nb";
    MixedClosingIndex();
    CrlfFrontmatter(rem, 9);
  }

  /** After a "---\r\n" opening line the frontmatter is what the closing
      search finds in the rest. */
  lemma CrlfFrontmatter(rem: string, e: nat)
    requires ClosingIndex(rem) == Some(e)
    ensures var f := Frontmatter("---\r\n" + rem); f.Success? && f.value.0 == rem[..e]
  {
    var c := "---\r\n" + rem;
    assert c[..5] == "---\r\n" && c[5..] == rem;
    assert c[5..5 + e] == rem[..e];
  }

  /** The body-skip loop passes over '-' bytes as well as line ends, so when
      the body text does not open with a space it never starts with '-': a
      body that opens with a Markdown list item or a horizontal rule loses its
      leading dashes. */
  lemma BodySkipsLeadingDashes(content: string, from: nat)
    requires from <= |content|
    ensures var b := SkipDelimiterBytes(content, from);
      b < |content| && !IsSpace(content[b]) ==>
        var body := BodyFrom(content, from);
        body != [] && body[0] == content[b] && body[0] != '-'
  {
    var b := SkipDelimiterBytes(content, from);
    if b < |content| && !IsSpace(content[b]) {
      var s := content[b..];
      assert TrimLeftSpace(s) == s;
    }
  }

  // ---------------------------------------------------------------- ParseContent

  /** The result of `ParseContent`. */
  function Parse(content: string, filename: string, source: Source, filePath: string,
                 yaml: FrontmatterDecoder): (r: Result<Document>)
    ensures Frontmatter(content).Failure? ==>
      r == Failure("failed to extract frontmatter: " + Frontmatter(content).error)
    ensures Frontmatter(content).Success? && yaml(Frontmatter(content).value.0).Failure? ==>
      r == Failure("failed to parse YAML frontmatter: " + yaml(Frontmatter(content).value.0).error)
    ensures Frontmatter(content).Success? && yaml(Frontmatter(content).value.0).Success? ==>
      (yaml(Frontmatter(content).value.0).value.description == "" <==>
       r == Failure("missing required field: description"))
    ensures r.Success? ==>
      var (fm, body) := Frontmatter(content).value;
      yaml(fm).Success? &&
      var meta := yaml(fm).value;
      && r.value.description == meta.description != ""
      && r.value.name == (if meta.name != "" then meta.name else TrimSuffix(filename, ".md"))
      && r.value.required == (meta.required != Some(false))
      && r.value.content == body
      && r.value.source == source
      && r.value.filePath == filePath
  {
    match Frontmatter(content)
    case Failure(e) => Failure("failed to extract frontmatter: " + e)
    case Success((fm, body)) =>
      match yaml(fm)
      case Failure(e) => Failure("failed to parse YAML frontmatter: " + e)
      case Success(meta) =>
        if meta.description == "" then Failure("missing required field: description")
        else
          Success(Document(
            if meta.name != "" then meta.name else TrimSuffix(filename, ".md"),
            meta.description, meta.required.GetOr(true), body, source, filePath))
  }

  /** `ParseContent`: builds the document, then overwrites the defaults. */
  method ParseContent(content: string, filename: string, source: Source, filePath: string,
                      yaml: FrontmatterDecoder) returns (r: Result<Document>)
    ensures r == Parse(content, filename, source, filePath, yaml)
  {
    var extracted := ExtractFrontmatter(content);
    if extracted.Failure? {
      return Failure("failed to extract frontmatter: " + extracted.error);
    }
    var (fm, body) := extracted.value;
    var decoded := yaml(fm);
    if decoded.Failure? {
      return Failure("failed to parse YAML frontmatter: " + decoded.error);
    }
    var meta := decoded.value;
    if meta.description == "" {
      return Failure("missing required field: description");
    }
    var doc := Document(meta.name, meta.description, true, body, source, filePath);
    if doc.name == "" {
      doc := doc.(name := TrimSuffix(filename, ".md"));
    }
    if meta.required.Some? {
      doc := doc.(required := meta.required.value);
    }
    return Success(doc);
  }

  /** The result of `ParseFile`; `read` is what `os.ReadFile(path)` returns. */
  function ParseFileResult(path: string, read: Result<string>, source: Source,
                           yaml: FrontmatterDecoder): (r: Result<Document>)
    ensures read.Failure? ==> r == Failure("failed to read file: " + read.error)
    ensures read.Success? ==> r == Parse(read.value, Base(path), source, path, yaml)
  {
    match read
    case Failure(e) => Failure("failed to read file: " + e)
    case Success(content) => Parse(content, Base(path), source, path, yaml)
  }

  /** `ParseFile`: the file name handed to the parser is `filepath.Base(path)`. */
  method ParseFile(path: string, read: Result<string>, source: Source,
                   yaml: FrontmatterDecoder) returns (r: Result<Document>)
    ensures r == ParseFileResult(path, read, source, yaml)
  {
    if read.Failure? {
      return Failure("failed to read file: " + read.error);
    }
    r := ParseContent(read.value, Base(path), source, path, yaml);
  }
}
