/** internal/output/output.go: the help text and a playbook's body as the
    command-line tool prints them. The `io.Writer` is a `Writer` object that
    records every chunk written to it, in order. */
module Output {
  import opened Wrappers
  import opened Text
  import opened Parser
  import opened Registry

  /** What `fmt.Fprintln` writes for `s`. */
  function Line(s: string): string {
    s + "\n"
  }

  lemma LineHead(s: string)
    ensures Line(s)[0] == if s == [] then '\n' else s[0]
  {
  }

  /** An `io.Writer`: `written` is the sequence of chunks handed to it. */
  class Writer {
    var written: seq<string>

    constructor ()
      ensures written == []
    {
      written := [];
    }

    /** `fmt.Fprintln(w, s)`: the text followed by a newline. */
    method WriteLine(s: string)
      modifies this
      ensures written == old(written) + [Line(s)]
    {
      written := written + [Line(s)];
    }
  }

  // ---------------------------------------------------------------- oneLineDescription

  const NoDescription := "(no description)"

  /** `oneLineDescription`: the words of `text` joined by single spaces, or a
      placeholder when there are none. */
  function OneLineDescription(text: string): (r: string)
    ensures IsBlank(text) ==> r == NoDescription
    ensures !IsBlank(text) ==> Fields(r) == Fields(text)
  {
    var fields := Fields(text);
    FieldsEmptyIffBlank(text);
    if |fields| == 0 then NoDescription
    else
      FieldsOfJoin(fields);
      Join(fields, " ")
  }

  /** The placeholder is itself the two words "(no" and "description)". */
  lemma NoDescriptionWords()
    ensures Fields(NoDescription) == ["(no", "description)"]
    ensures Join(["(no", "description)"], " ") == NoDescription
  {
    var ws := ["(no", "description)"];
    assert Join(ws, " ") == ws[0] + " " + Join(ws[1..], " ");
    assert Join(ws, " ") == NoDescription;
    FieldsOfJoin(ws);
  }

  /** The result is one line: non-empty, with no white space at either end
      and no white space other than single-space separators. */
  lemma OneLineDescriptionShape(text: string)
    ensures var r := OneLineDescription(text);
      r != [] && !IsSpace(r[0]) && !IsSpace(r[|r| - 1]) &&
      (forall i :: 0 <= i < |r| && IsSpace(r[i]) ==> r[i] == ' ') &&
      '\n' !in r
  {
    var r := OneLineDescription(text);
    FieldsEmptyIffBlank(text);
    if IsBlank(text) {
      NoDescriptionWords();
      JoinOfWordsShape(["(no", "description)"]);
    } else {
      JoinOfWordsShape(Fields(text));
    }
    forall i | 0 <= i < |r| ensures r[i] != '\n' {
      if r[i] == '\n' {
        assert IsSpace(r[i]);
      }
    }
  }

  /** Collapsing an already collapsed description changes nothing. */
  lemma OneLineDescriptionIdempotent(text: string)
    ensures OneLineDescription(OneLineDescription(text)) == OneLineDescription(text)
  {
    var r := OneLineDescription(text);
    OneLineDescriptionShape(text);
    assert !IsBlank(r) by {
      assert !IsSpace(r[0]);
    }
    FieldsEmptyIffBlank(r);
    if IsBlank(text) {
      NoDescriptionWords();
    } else {
      FieldsEmptyIffBlank(text);
      FieldsOfJoin(Fields(text));
    }
  }

  /** A text with at least one word prints as exactly its words; the
      placeholder also stands for a description that is literally
      "(no description)", so the placeholder alone does not mean "blank". */
  lemma OneLineDescriptionWords(text: string)
    ensures !IsBlank(text) ==> OneLineDescription(text) == Join(Fields(text), " ")
    ensures OneLineDescription(NoDescription) == NoDescription
  {
    FieldsEmptyIffBlank(text);
    NoDescriptionWords();
    FieldsEmptyIffBlank(NoDescription);
  }

  // ---------------------------------------------------------------- PrintHelp

  const Usage := "Usage: howto [PLAYBOOK]"
  const Pitch := "`howto` lets language models pull the exact playbooks their operators prepared."
  const HowTo := "Run it to list playbooks, then fetch the one you need with `howto <playbook>`."
  const RulesHeader := "LLM operating rules:"
  const PlaybooksHeader := "Playbooks:"
  const NoPlaybooks := "No playbooks available."

  /** The usage text at the top of the help. */
  function UsageLines(): seq<string> {
    [Line(Usage), Line(""), Line(Pitch), Line(HowTo), Line(""), Line(RulesHeader)]
  }

  /** The lines before the list; `rules` is `instructions.LLMBullets()`. */
  function Preamble(rules: seq<string>): seq<string> {
    UsageLines() + RuleLines(rules) + [Line("")]
  }

  /** One "- rule" line per rule. */
  function RuleLines(rules: seq<string>): seq<string> {
    seq(|rules|, i requires 0 <= i < |rules| => Line("- " + rules[i]))
  }

  /** The line `PrintHelp` writes for one document. */
  function DocLine(d: Document): string {
    Line("  " + d.name + ": " + OneLineDescription(d.description))
  }

  /** One line per document, in order. */
  function DocLines(docs: seq<Document>): seq<string> {
    seq(|docs|, i requires 0 <= i < |docs| => DocLine(docs[i]))
  }

  /** What follows the preamble: the placeholder, or the header and one
      line per document. */
  function ListingLines(docs: seq<Document>): seq<string> {
    if docs == [] then [Line(NoPlaybooks)]
    else [Line(PlaybooksHeader)] + DocLines(docs)
  }

  /** Everything `PrintHelp` writes when `GetAll` returns `docs`. */
  function HelpLines(docs: seq<Document>, rules: seq<string>): seq<string> {
    Preamble(rules) + ListingLines(docs)
  }

  /** `PrintHelp`. */
  method PrintHelp(w: Writer, reg: Registry, rules: seq<string>)
    modifies w
    ensures w.written == old(w.written) + HelpLines(AllDocuments(reg), rules)
  {
    ghost var start := w.written;
    WritePreamble(w, rules);
    var docs := GetAll(reg);
    WriteListing(w, docs);
    AppendAssoc(start, Preamble(rules), ListingLines(docs));
  }

  /** The part of `PrintHelp` after `GetAll`. */
  method WriteListing(w: Writer, docs: seq<Document>)
    modifies w
    ensures w.written == old(w.written) + ListingLines(docs)
  {
    if |docs| == 0 {
      w.WriteLine(NoPlaybooks);
      return;
    }
    ghost var start := w.written;
    w.WriteLine(PlaybooksHeader);
    WriteDocLines(w, docs);
    AppendAssoc(start, [Line(PlaybooksHeader)], DocLines(docs));
  }

  /** The usage lines and the rules, up to the blank line after them. */
  method WritePreamble(w: Writer, rules: seq<string>)
    modifies w
    ensures w.written == old(w.written) + Preamble(rules)
  {
    WriteUsage(w);
    WriteRules(w, rules);
    w.WriteLine("");
  }

  method WriteUsage(w: Writer)
    modifies w
    ensures w.written == old(w.written) + UsageLines()
  {
    w.WriteLine(Usage);
    w.WriteLine("");
    w.WriteLine(Pitch);
    w.WriteLine(HowTo);
    w.WriteLine("");
    w.WriteLine(RulesHeader);
  }

  /** The loop over `instructions.LLMBullets()`. */
  method WriteRules(w: Writer, rules: seq<string>)
    modifies w
    ensures w.written == old(w.written) + RuleLines(rules)
  {
    ghost var head := w.written;
    for i := 0 to |rules|
      invariant w.written == head + RuleLines(rules[..i])
    {
      w.WriteLine("- " + rules[i]);
      assert RuleLines(rules[..i + 1]) == RuleLines(rules[..i]) + [Line("- " + rules[i])];
    }
    assert rules[..|rules|] == rules;
  }

  lemma DocLinesStep(docs: seq<Document>, i: nat)
    requires i < |docs|
    ensures DocLines(docs[..i + 1]) == DocLines(docs[..i]) + [DocLine(docs[i])]
  {
    assert DocLines(docs[..i + 1]) == DocLines(docs[..i]) + [DocLine(docs[i])];
  }

  /** The loop over the documents. */
  method WriteDocLines(w: Writer, docs: seq<Document>)
    modifies w
    ensures w.written == old(w.written) + DocLines(docs)
  {
    ghost var listed := w.written;
    for i := 0 to |docs|
      invariant w.written == listed + DocLines(docs[..i])
    {
      var description := OneLineDescription(docs[i].description);
      DocLinesStep(docs, i);
      AppendAssoc(listed, DocLines(docs[..i]), [DocLine(docs[i])]);
      w.WriteLine("  " + docs[i].name + ": " + description);
    }
    assert docs[..|docs|] == docs;
  }

  /** `GetAll` returns one document per key, so the registry is empty
      exactly when `PrintHelp` sees no documents. */
  lemma AllDocumentsEmpty(reg: Registry)
    ensures |AllDocuments(reg)| == |reg|
    ensures AllDocuments(reg) == [] <==> reg == map[]
  {
    if reg != map[] {
      assert |reg| != 0;
    }
  }

  lemma PreambleLength(rules: seq<string>)
    ensures |Preamble(rules)| == 7 + |rules|
  {
    assert |UsageLines()| == 6;
  }

  /** With no documents only the placeholder follows the preamble; otherwise
      the header is followed by one line per document in `GetAll` order. */
  lemma HelpLinesShape(docs: seq<Document>, rules: seq<string>)
    ensures var t := HelpLines(docs, rules);
      var p := |Preamble(rules)|;
      p == 7 + |rules| &&
      (docs == [] ==> t == Preamble(rules) + [Line(NoPlaybooks)]) &&
      (docs != [] ==>
        |t| == p + 1 + |docs| && t[p] == Line(PlaybooksHeader) &&
        forall i :: 0 <= i < |docs| ==> t[p + 1 + i] == DocLine(docs[i]))
  {
    PreambleLength(rules);
    var pre := Preamble(rules);
    var tail := ListingLines(docs);
    var t := pre + tail;
    assert HelpLines(docs, rules) == t;
    if docs != [] {
      assert tail == [Line(PlaybooksHeader)] + DocLines(docs);
      forall i | 0 <= i < |docs| ensures t[|pre| + 1 + i] == DocLine(docs[i]) {
        assert t[|pre| + 1 + i] == tail[1 + i];
      }
    }
  }

  lemma UsageExcludes()
    ensures Line(PlaybooksHeader) !in UsageLines() && Line(NoPlaybooks) !in UsageLines()
  {
    LineHead(PlaybooksHeader);
    LineHead(NoPlaybooks);
    LineHead(Usage);
    LineHead("");
    LineHead(RulesHeader);
    assert |Line(Pitch)| != |Line(PlaybooksHeader)| && |Line(Pitch)| != |Line(NoPlaybooks)|;
    assert |Line(HowTo)| != |Line(PlaybooksHeader)| && |Line(HowTo)| != |Line(NoPlaybooks)|;
  }

  /** Neither the header nor the placeholder is among the lines before the list. */
  lemma PreambleExcludes(rules: seq<string>)
    ensures Line(PlaybooksHeader) !in Preamble(rules) && Line(NoPlaybooks) !in Preamble(rules)
  {
    var pre := Preamble(rules);
    UsageExcludes();
    LineHead(PlaybooksHeader);
    LineHead(NoPlaybooks);
    LineHead("");
    forall i | 0 <= i < |pre| ensures pre[i] != Line(PlaybooksHeader) && pre[i] != Line(NoPlaybooks) {
      if i < 6 {
        assert pre[i] == UsageLines()[i];
      } else if i < 6 + |rules| {
        assert pre[i] == Line("- " + rules[i - 6]);
        LineHead("- " + rules[i - 6]);
      }
    }
  }

  /** The "Playbooks:" header is written exactly when there is a document
      to list, and the placeholder exactly when there is none. */
  lemma HelpLinesHeader(docs: seq<Document>, rules: seq<string>)
    ensures Line(PlaybooksHeader) in HelpLines(docs, rules) <==> docs != []
    ensures Line(NoPlaybooks) in HelpLines(docs, rules) <==> docs == []
  {
    var pre := Preamble(rules);
    var t := HelpLines(docs, rules);
    LineHead(PlaybooksHeader);
    LineHead(NoPlaybooks);
    PreambleExcludes(rules);
    var lines := DocLines(docs);
    forall i | 0 <= i < |lines| ensures lines[i] != Line(PlaybooksHeader) && lines[i] != Line(NoPlaybooks) {
      LineHead("  " + docs[i].name + ": " + OneLineDescription(docs[i].description));
    }
    if docs != [] {
      assert t == pre + ([Line(PlaybooksHeader)] + lines);
      assert t[|pre|] == Line(PlaybooksHeader);
      forall i | 0 <= i < |t| ensures t[i] != Line(NoPlaybooks) {
        if i > |pre| {
          assert t[i] == lines[i - |pre| - 1];
        }
      }
    } else {
      assert t[|pre|] == Line(NoPlaybooks);
    }
  }

  // ---------------------------------------------------------------- PrintPlaybook

  /** `PrintPlaybook`: the content and a newline, or an error and no output. */
  method PrintPlaybook(w: Writer, reg: Registry, name: string) returns (err: Option<string>)
    modifies w
    ensures name !in reg ==> err == Some("unknown playbook: " + name) && w.written == old(w.written)
    ensures name in reg ==> err == None && w.written == old(w.written) + [Line(reg[name].content)]
  {
    var d := Get(reg, name);
    if d.None? {
      return Some("unknown playbook: " + name);
    }
    w.WriteLine(d.value.content);
    return None;
  }
}
