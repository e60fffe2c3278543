/** What decides, in a file and its name, how the completion of incident files goes. */
module IncidentFiles {
  import opened Wrappers
  import opened Text
  import opened RagHeader
  import opened IncidentCorpus

  // ---------- blank and neat ----------

  lemma StripOfSpaces(s: string)
    ensures Strip(s) == "" <==> AllSpace(s)
  {
    if AllSpace(s) {
      StripSpaces(s, "", "");
      assert s + "" + "" == s;
    } else {
      var i :| 0 <= i < |s| && !IsSpace(s[i]);
      NotBlank(s, i);
    }
  }

  lemma NeatIsShape(s: string)
    ensures Neat(s) <==> AllSpace(s) || Trimmed(s)
  {
    hide Strip, AllSpace;
    StripOfSpaces(s);
    StripIsTrimmed(s);
    if Trimmed(s) {
      StripOfTrimmed(s);
    }
  }

  lemma ShapeKeeps(s: string, t: string)
    requires SameShape(s, t)
    ensures Neat(s) <==> Neat(t)
    ensures Strip(s) == "" <==> Strip(t) == ""
  {
    hide Strip, Neat, IsSpace, IsBreak;
    NeatIsShape(s);
    NeatIsShape(t);
    StripOfSpaces(s);
    StripOfSpaces(t);
  }

  // ---------- the identifier ----------

  lemma IdExactly(stem: string, m: Metadata)
    ensures Strip(InferAlertId(stem, m)) == "" <==> !Gives(m, "alert_id") && AllSpace(stem)
    ensures Neat(InferAlertId(stem, m)) <==> Gives(m, "alert_id") || IsNumbered(stem) || Neat(stem)
  {
    hide Strip, AlertIdFromStem, IsNumbered, NoBreak, IsSpace;
    StripTwice(GetOr(m, "alert_id", ""));
    AlertIdShape(stem);
    StripOfSpaces(stem);
    if !IsNumbered(stem) {
      ShapeKeeps(stem, AlertIdFromStem(stem));
    } else {
      SolidIsKept(AlertIdFromStem(stem));
    }
  }

  // ---------- the name ----------

  /** The stem is all gaps, or neither begins nor ends with one. */
  predicate NeatTitle(stem: string) {
    AllGaps(stem) || (!IsGap(stem[0]) && !IsGap(stem[|stem| - 1]))
  }

  lemma TitleExactly(stem: string)
    ensures Strip(Title(Replace(stem, '-', ' '))) == "" <==> AllGaps(stem)
    ensures Neat(Title(Replace(stem, '-', ' '))) <==> NeatTitle(stem)
  {
    hide Strip, Neat, IsGap, IsSpace, Title, Replace;
    TitleShape(stem);
    StripOfSpaces(Title(Replace(stem, '-', ' ')));
    NeatIsShape(Title(Replace(stem, '-', ' ')));
  }

  lemma HeadingOrTitle(stem: string, body: string)
    ensures var name := HeadingIn(SplitLines(body), Title(Replace(stem, '-', ' ')));
      && (Strip(name) == "" <==> !HasHeading(body) && AllGaps(stem))
      && (Neat(name) <==> HasHeading(body) || NeatTitle(stem))
  {
    hide Strip, IsGap, IsHeading, SplitLines, HeadingIn, Title, Replace, AllGaps, NeatTitle;
    LinesHaveNoBreak(body);
    HeadingExactly(SplitLines(body), Title(Replace(stem, '-', ' ')));
    TitleExactly(stem);
    if HasHeading(body) {
      SolidIsKept(HeadingIn(SplitLines(body), Title(Replace(stem, '-', ' '))));
    }
  }

  lemma NameExactly(stem: string, d: Document)
    ensures Strip(AlertNameOf(stem, d)) == "" <==> Nameless(d) && AllGaps(stem)
    ensures Neat(AlertNameOf(stem, d)) <==> !Nameless(d) || NeatTitle(stem)
  {
    hide Strip, HasHeading, HeadingIn, SplitLines, Title, Replace, AllGaps, NeatTitle;
    StripTwice(GetOr(d.metadata, "alert_name", ""));
    StripTwice(GetOr(d.metadata, "title", ""));
    HeadingOrTitle(stem, d.body);
  }

  /** The file says its identifier or its name is not all white space, and it says its name,
      or has a heading, or its name is not all hyphens and white space. */
  predicate NamesAlert(stem: string, d: Document) {
    && (Gives(d.metadata, "alert_id") || !AllSpace(stem))
    && (!Nameless(d) || !AllGaps(stem))
  }

  lemma NamedExactly(stem: string, d: Document)
    ensures Named(Read(stem, d)) <==> NamesAlert(stem, d)
  {
    hide Strip, InferAlertId, AlertNameOf, ServiceOf, AlertTypeOf, NormalizeSeverity, Gives, Nameless, AllSpace, AllGaps;
    IdExactly(stem, d.metadata);
    NameExactly(stem, d);
  }

  // ---------- parsed values are stripped ----------

  ghost predicate StrippedValues(m: Metadata) {
    forall i :: 0 <= i < |m| ==> Strip(m[i].1) == m[i].1
  }

  lemma {:induction false} PutStripped(m: Metadata, key: string, value: string)
    requires StrippedValues(m) && Strip(value) == value
    ensures StrippedValues(Put(m, key, value))
  {
    hide Strip;
    if m != [] && m[0].0 != key {
      PutStripped(m[1..], key, value);
    }
  }

  lemma {:induction false} ParsedStripped(lines: seq<string>, m: Metadata)
    requires StrippedValues(m)
    ensures StrippedValues(ParseLines(lines, m).0)
  {
    hide Strip, ColonAt, KeyOf, Put, StrippedValues;
    if lines != [] && Strip(lines[0]) != "" && ColonAt(Strip(lines[0])) < |Strip(lines[0])| {
      var raw := Strip(lines[0]);
      StripTwice(raw[ColonAt(raw) + 1..]);
      PutStripped(m, KeyOf(raw), ValueOf(raw));
      ParsedStripped(lines[1..], Put(m, KeyOf(raw), ValueOf(raw)));
    }
  }

  lemma {:induction false} GetStripped(m: Metadata, key: string)
    requires StrippedValues(m) && Get(m, key).Some?
    ensures Strip(Get(m, key).value) == Get(m, key).value
  {
    hide Strip;
    if m[0].0 != key {
      GetStripped(m[1..], key);
    }
  }

  lemma NothingStripped()
    ensures StrippedValues([])
  {
  }

  // ---------- when one pass is enough ----------

  /** The identifier is given, or the name is that of a numbered incident, or has no white
      space at its ends; the alert's name is given, or the file's name has no hyphen or white
      space at its ends; and neither source is given without a value, unless there is no
      identifier to take the reference's place. A blank name counts as neat. */
  predicate NeatFile(stem: string, d: Document) {
    && (Gives(d.metadata, "alert_id") || IsNumbered(stem) || Neat(stem))
    && (!Nameless(d) || NeatTitle(stem))
    && Get(d.metadata, "source_system") != Some("")
    && (Get(d.metadata, "source_ref") == Some("") ==> !Gives(d.metadata, "alert_id") && AllSpace(stem))
  }

  lemma CompleteExactly(stem: string, d: Document)
    requires StrippedValues(d.metadata)
    ensures Complete(Read(stem, d)) <==> NeatFile(stem, d)
  {
    hide Strip, InferAlertId, AlertNameOf, ServiceOf, AlertTypeOf, NormalizeSeverity, Gives, Nameless, AllSpace, NeatTitle,
      StrippedValues, IsNumbered;
    var m := d.metadata;
    IdExactly(stem, m);
    NameExactly(stem, d);
    InternalIsPlain();
    StripOfNothing();
    if Get(m, "source_system").Some? {
      GetStripped(m, "source_system");
    }
    if Get(m, "source_ref").Some? {
      GetStripped(m, "source_ref");
    }
  }

  /** One pass is enough exactly for a neat file. */
  lemma OnePassSufficesExactly(stem: string, text: string)
    requires StemIsPlain(stem, Parse(text))
    ensures Normalize(stem, Normalize(stem, text)) == Normalize(stem, text) <==> NeatFile(stem, Parse(text))
  {
    hide Normalize, Complete, NeatFile, StemIsPlain, StrippedValues, Read, SplitLines, ParseLines;
    NothingStripped();
    ParsedStripped(SplitLines(text), []);
    OnePassSuffices(stem, text);
    CompleteExactly(stem, Parse(text));
  }

  /** Two are needed when an optional key is present but empty: the first pass drops the
      key, the second supplies its default. */
  lemma EmptySourceNeedsTwo(stem: string, text: string)
    requires StemIsPlain(stem, Parse(text)) && Get(Parse(text).metadata, "source_system") == Some("")
    ensures Normalize(stem, Normalize(stem, text)) != Normalize(stem, text)
  {
    hide Normalize, Parse, StemIsPlain, Gives, Nameless, IsNumbered, Neat, NeatTitle;
    OnePassSufficesExactly(stem, text);
  }

  lemma NothingParses()
    ensures Parse("") == Document([], "")
  {
    assert SplitLines("") == [];
  }

  /** An empty document says nothing. */
  lemma NothingSays()
    ensures Nameless(Document([], "")) && !Gives([], "alert_id")
  {
    StripOfNothing();
    assert SplitLines("") == [];
  }

  /** They are also needed when the alert is named after a file such as "-draft": the first
      pass writes a name that begins with a space. */
  lemma EdgeHyphenNeedsTwo(stem: string)
    requires NoBreak(stem) && stem != "" && IsGap(stem[0]) && !AllGaps(stem)
    ensures Normalize(stem, Normalize(stem, "")) != Normalize(stem, "")
  {
    hide Normalize, Parse, StemIsPlain, IsNumbered, Neat, IsGap, Gives, Nameless;
    NothingParses();
    NothingSays();
    OneLineIsPlain(stem, Document([], ""));
    OnePassSufficesExactly(stem, "");
  }

  // ---------- a line break in the name ----------

  /** The beginning of a printed incident. */
  lemma PrintedTop(inc: Incident, body: string) returns (rest: string)
    requires Strip(inc.alertId) != "" && Strip(inc.alertName) != "" && Strip(inc.service) != "" && Strip(inc.severity) != ""
    ensures rest == Join(HeaderLines(inc.Pairs()[3..])) + "\n\n" + Strip(body) + "\n"
    ensures Serialize(inc.Pairs(), body) ==
      "alert_id: " + inc.alertId + "\n" + ("alert_name: " + inc.alertName + "\n" + ("service: " + inc.service + "\n" + rest))
  {
    hide Strip, HeaderLines;
    var m := inc.Pairs();
    rest := Join(HeaderLines(m[3..])) + "\n\n" + Strip(body) + "\n";
    HeaderTop(m);
    HeaderTop(m[1..]);
    HeaderTop(m[2..]);
    HeaderTop(m[3..]);
    assert m[1..][1..] == m[2..] && m[2..][1..] == m[3..];
    assert m[0] == ("alert_id", inc.alertId) && m[1] == ("alert_name", inc.alertName) && m[2] == ("service", inc.service);
    var x, y, z := "alert_id" + ": " + inc.alertId, "alert_name" + ": " + inc.alertName, "service" + ": " + inc.service;
    JoinCons(x, HeaderLines(m[1..]));
    JoinCons(y, HeaderLines(m[2..]));
    JoinCons(z, HeaderLines(m[3..]));
    assert "alert_id" + ": " == "alert_id: " && "alert_name" + ": " == "alert_name: " && "service" + ": " == "service: ";
  }

  lemma HeaderTop(m: Metadata)
    requires m != [] && Strip(m[0].1) != ""
    ensures HeaderLines(m) == [m[0].0 + ": " + m[0].1] + HeaderLines(m[1..]) && HeaderLines(m) != []
  {
    hide Strip;
  }

  lemma JoinCons(line: string, lines: seq<string>)
    requires lines != []
    ensures Join([line] + lines) == line + "\n" + Join(lines)
  {
    assert ([line] + lines)[1..] == lines;
  }

  /** A pair on one line, above others. */
  lemma ReadPair(key: string, value: string, lines: seq<string>, acc: Metadata)
    requires GoodKey(key) && Trimmed(value) && value != "" && Get(acc, key).None?
    ensures ParseLines([key + ": " + value] + lines, acc) == ParseLines(lines, acc + [(key, value)])
  {
    hide Strip, ColonAt, Put, Get, GoodKey, Trimmed;
    StripOfTrimmed(value);
    LineParses(key, value);
    PutAtEnd(acc, key, value);
    assert ([key + ": " + value] + lines)[1..] == lines;
  }

  lemma WordEnds(lines: seq<string>, acc: Metadata)
    ensures ParseLines(["B"] + lines, acc) == (acc, ["B"] + lines)
  {
    StripOfTrimmed("B");
    assert ColonAt("B") == 1;
  }

  lemma KeysOfIncidents()
    ensures GoodKey("alert_id") && GoodKey("alert_name") && "alert_id" != "alert_name"
    ensures Trimmed("A") && NoBreak("A") && NoBreak("B") && NoBreak("alert_id: A") && NoBreak("alert_name: A")
  {
    PlainKey("alert_id");
    PlainKey("alert_name");
    assert "alert_id"[6] == 'i' && "alert_name"[6] == 'n';
  }

  const BROKEN := "a\nb"

  /** What is read from an empty file of that name. */
  lemma BrokenRead(d: Document)
    requires Nameless(d)
    ensures AlertIdFromStem(BROKEN) == "A\nB" && AlertNameOf(BROKEN, d) == HeadingIn(SplitLines(d.body), "A\nB")
    ensures Strip("A\nB") == "A\nB"
  {
    hide HeadingIn, SplitLines, HasHeading, Strip;
    assert Lower(BROKEN) == BROKEN && Replace(BROKEN, '_', '-') == BROKEN && Replace(BROKEN, '-', ' ') == BROKEN;
    assert BROKEN[0] != "dw-"[0] && |BROKEN| < |"inc-"|;
    assert Upper(BROKEN) == "A\nB" && Title(BROKEN) == "A\nB";
    BrokenIsTrimmed();
    StripOfTrimmed("A\nB");
  }

  lemma BrokenIsTrimmed()
    ensures Trimmed("A\nB")
  {
    assert "A\nB"[0] == 'A' && "A\nB"[2] == 'B';
  }

  /** The lines of a text that begins with a broken identifier, and what they parse to. */
  lemma BrokenIdParses(rest: string)
    ensures Parse("alert_id: A\nB\n" + rest).metadata == [("alert_id", "A")]
    ensures Parse("alert_id: A\nB\n" + rest).body == Join(["B"] + SplitLines(rest))
  {
    hide Strip, GoodKey, Trimmed, NoBreak, SplitLines, ParseLines, LStripNewlines, Join, Get;
    KeysOfIncidents();
    PairLines();
    var text := "alert_id: A\nB\n" + rest;
    assert text == "alert_id: A" + "\n" + ("B" + "\n" + rest);
    SplitFirstLine("alert_id: A", "B" + "\n" + rest);
    SplitFirstLine("B", rest);
    var lines := SplitLines(rest);
    assert SplitLines(text) == ["alert_id" + ": " + "A"] + (["B"] + lines);
    OnlyId();
    ReadPair("alert_id", "A", ["B"] + lines, []);
    assert [] + [("alert_id", "A")] == [("alert_id", "A")];
    WordEnds(lines, [("alert_id", "A")]);
    BodyOfWord(lines);
  }

  lemma BodyOfWord(lines: seq<string>)
    ensures LStripNewlines(Join(["B"] + lines)) == Join(["B"] + lines)
  {
    assert Join(["B"] + lines)[0] == 'B';
  }

  /** The same for a broken name below an identifier. */
  lemma BrokenNameParses(rest: string)
    ensures Parse("alert_id: A\nalert_name: A\nB\n" + rest).metadata == [("alert_id", "A"), ("alert_name", "A")]
    ensures SplitLines("alert_id: A\nalert_name: A\nB\n" + rest) == ["alert_id: A", "alert_name: A", "B"] + SplitLines(rest)
  {
    hide Strip, GoodKey, Trimmed, NoBreak, SplitLines, ParseLines, LStripNewlines, Join, Get;
    KeysOfIncidents();
    PairLines();
    var text := "alert_id: A\nalert_name: A\nB\n" + rest;
    assert text == "alert_id: A" + "\n" + ("alert_name: A" + "\n" + ("B" + "\n" + rest));
    SplitFirstLine("alert_id: A", "alert_name: A" + "\n" + ("B" + "\n" + rest));
    SplitFirstLine("alert_name: A", "B" + "\n" + rest);
    SplitFirstLine("B", rest);
    var lines := SplitLines(rest);
    assert SplitLines(text) == ["alert_id" + ": " + "A"] + (["alert_name" + ": " + "A"] + (["B"] + lines));
    OnlyId();
    ReadPair("alert_id", "A", ["alert_name" + ": " + "A"] + (["B"] + lines), []);
    assert [] + [("alert_id", "A")] == [("alert_id", "A")];
    ReadPair("alert_name", "A", ["B"] + lines, [("alert_id", "A")]);
    assert [("alert_id", "A")] + [("alert_name", "A")] == [("alert_id", "A"), ("alert_name", "A")];
    WordEnds(lines, [("alert_id", "A"), ("alert_name", "A")]);
  }

  lemma PairLines()
    ensures "alert_id" + ": " + "A" == "alert_id: A" && "alert_name" + ": " + "A" == "alert_name: A"
  {
  }

  lemma OnlyId()
    ensures Get([], "alert_id").None?
    ensures var m: Metadata := [("alert_id", "A")];
      Get(m, "alert_id") == Some("A") && Get(m, "alert_name").None? && Get(m, "title").None?
  {
    var m: Metadata := [("alert_id", "A")];
    assert "alert_id"[6] == 'i' && "alert_name"[6] == 'n' && "title"[0] == 't' && m[1..] == [];
  }

  predicate NoHash(s: string) {
    forall i :: 0 <= i < |s| ==> s[i] != '#'
  }

  lemma NoHashIsNoHeading(line: string)
    requires NoHash(line)
    ensures !IsHeading(line)
  {
    hide Strip;
    var a, b := StripParts(line);
    assert Strip(line) != "" ==> Strip(line)[0] == line[|a|];
  }

  lemma {:induction false} NoHashInLines(s: string)
    requires NoHash(s)
    ensures forall line :: line in SplitLines(s) ==> NoHash(line)
  {
    if s != "" {
      NoHashInLines(s[1..]);
      var rest := SplitLines(s[1..]);
      if rest != [] {
        assert rest[0] in rest && forall line :: line in rest <==> line == rest[0] || line in rest[1..];
      }
    }
  }

  lemma NoHashNoHeadings(s: string)
    requires NoHash(s)
    ensures forall line :: line in SplitLines(s) ==> !IsHeading(line)
  {
    hide SplitLines, IsHeading, NoHash;
    NoHashInLines(s);
    forall line | line in SplitLines(s) ensures !IsHeading(line) {
      NoHashIsNoHeading(line);
    }
  }

  lemma {:induction false} NoHashInJoin(lines: seq<string>)
    requires forall line :: line in lines ==> NoHash(line)
    ensures NoHash(Join(lines))
  {
    if |lines| > 1 {
      NoHashInJoin(lines[1..]);
      assert lines[0] in lines;
    } else if |lines| == 1 {
      assert lines[0] in lines;
    }
  }

  lemma NoHashInHeader(m: Metadata)
    requires forall i :: 0 <= i < |m| ==> NoHash(m[i].0) && NoHash(m[i].1)
    ensures NoHash(Join(HeaderLines(m)))
  {
    forall line | line in HeaderLines(m) ensures NoHash(line) {
      var i := LineHasPair(m, line);
    }
    NoHashInJoin(HeaderLines(m));
  }

  // ---------- what two passes make of an empty file of that name ----------

  lemma WordsStay()
    ensures Strip("unknown") == "unknown" && Strip("high") == "high"
  {
    StripOfTrimmed("unknown");
    StripOfTrimmed("high");
  }

  lemma TypeHasNoHash(name: string)
    ensures NoHash(AlertTypeOf([], name)) && AlertTypeOf([], name) != ""
  {
    hide Strip, Contains;
    StripOfNothing();
  }

  /** What is read when nothing is said. */
  lemma NothingRead(name: string)
    ensures ServiceOf([]) == "unknown" && NormalizeSeverity("") == "high" && NoHash(AlertTypeOf([], name))
    ensures AlertTypeOf([], name) != "" && Strip("unknown") == "unknown" && Strip("high") == "high"
  {
    hide Strip, AlertTypeOf, NoHash;
    StripOfNothing();
    WordsStay();
    TypeHasNoHash(name);
    assert Lower("") == "";
  }

  lemma PlainKeysHaveNoHash(inc: Incident)
    ensures forall i :: 0 <= i < 7 ==> NoHash(inc.Pairs()[i].0)
  {
  }

  /** Nothing printed below the identifier is a heading. */
  lemma NothingBelow(inc: Incident, rest: string)
    requires NoHash(inc.alertName) && NoHash(inc.service) && NoHash(inc.severity) && NoHash(inc.alertType)
    requires NoHash(inc.sourceSystem) && NoHash(inc.sourceRef)
    requires rest == Join(HeaderLines(inc.Pairs()[3..])) + "\n\n" + "" + "\n"
    ensures NoHash("alert_name: " + inc.alertName + "\n" + ("service: " + inc.service + "\n" + rest))
  {
    hide HeaderLines, Join;
    PlainKeysHaveNoHash(inc);
    var m := inc.Pairs()[3..];
    assert forall i :: 0 <= i < |m| ==> m[i] == inc.Pairs()[i + 3];
    NoHashInHeader(m);
    assert NoHash(Join(HeaderLines(m)));
    assert NoHash("alert_name: ") && NoHash("service: ") && NoHash("\n");
  }

  lemma BrokenRead0()
    ensures var inc := Read(BROKEN, Document([], ""));
      && inc.alertId == inc.alertName == inc.sourceRef == "A\nB"
      && inc.service == "unknown" && inc.severity == "high" && NoHash(inc.alertType) && inc.sourceSystem == "internal"
  {
    hide Strip, AlertIdFromStem, TypeFromName, NormalizeSeverity;
    NothingSays();
    BrokenRead(Document([], ""));
    HeadingOfNothing("A\nB");
    NothingRead("A\nB");
    StripOfNothing();
  }

  lemma HeadingOfNothing(fallback: string)
    ensures HeadingIn(SplitLines(""), fallback) == fallback
  {
    assert SplitLines("") == [];
  }

  /** The first pass. */
  lemma BrokenFirstPass() returns (rest: string)
    ensures Normalize(BROKEN, "") == "alert_id: A\nB\n" + rest && NoHash(rest)
    ensures Parse(Normalize(BROKEN, "")).metadata == [("alert_id", "A")]
    ensures Parse(Normalize(BROKEN, "")).body == Join(["B"] + SplitLines(rest))
  {
    hide Strip, Parse, Serialize, SplitLines, HeaderLines, Join, NoHash, Read;
    NothingParses();
    NormalizeUnfolds(BROKEN, "");
    var inc := Read(BROKEN, Document([], ""));
    BrokenRead0();
    BrokenIsStripped();
    var below := PrintedTop(inc, "");
    rest := "alert_name: " + inc.alertName + "\n" + ("service: " + inc.service + "\n" + below);
    assert "alert_id: " + "A\nB" + "\n" == "alert_id: A\nB\n";
    BrokenIdParses(rest);
    NothingBelow(inc, below);
  }

  lemma BrokenIsStripped()
    ensures Strip("A\nB") == "A\nB" && Strip("unknown") == "unknown" && Strip("high") == "high" && Strip("") == ""
    ensures NoHash("A\nB") && NoHash("unknown") && NoHash("high") && NoHash("internal")
  {
    hide Strip;
    BrokenIsTrimmed();
    StripOfTrimmed("A\nB");
    NothingRead("");
    StripOfNothing();
  }

  /** The second pass still finds no heading, so it names the alert after the file again. */
  lemma BrokenReadAgain(d: Document, rest: string)
    requires d.metadata == [("alert_id", "A")] && d.body == Join(["B"] + SplitLines(rest)) && NoHash(rest)
    ensures var inc := Read(BROKEN, d);
      inc.alertId == "A" && inc.alertName == "A\nB" && inc.service == "unknown" && inc.severity == "high"
  {
    hide Strip, AlertIdFromStem, TypeFromName, NormalizeSeverity, SplitLines, IsHeading, HeadingIn, NoHash, Join;
    var lines := ["B"] + SplitLines(rest);
    assert NoHash("B") by { BIsPlain(); }
    NoHashInLines(rest);
    NoHashInJoin(lines);
    NoHashNoHeadings(d.body);
    NoHeadingNoName(d);
    BrokenRead(d);
    LinesHaveNoBreak(d.body);
    HeadingExactly(SplitLines(d.body), "A\nB");
    OnlyIdIsRead();
  }

  lemma BIsPlain()
    ensures NoHash("B") && Trimmed("A") && Strip("A") == "A"
  {
    StripOfTrimmed("A");
  }

  lemma OnlyIdIsRead()
    ensures var m: Metadata := [("alert_id", "A")];
      && InferAlertId(BROKEN, m) == "A" && ServiceOf(m) == "unknown" && NormalizeSeverity(GetOr(m, "severity", "")) == "high"
  {
    hide Strip, AlertIdFromStem;
    var m: Metadata := [("alert_id", "A")];
    assert "alert_id"[0] == 'a' && "service"[0] == 's' && "severity"[0] == 's' && "services"[0] == 's' && m[1..] == [];
    BIsPlain();
    StripOfNothing();
    NothingRead("");
  }

  lemma NoHeadingNoName(d: Document)
    requires d.metadata == [("alert_id", "A")] && forall line :: line in SplitLines(d.body) ==> !IsHeading(line)
    ensures Nameless(d)
  {
    hide Strip, IsHeading, SplitLines;
    OnlyId();
    StripOfNothing();
  }

  /** A line break in the name can cost a third pass: an empty file of this name is not
      settled after two. */
  lemma BreakInNameNeedsThree()
    ensures var twice := Normalize(BROKEN, Normalize(BROKEN, ""));
      Normalize(BROKEN, twice) != twice
  {
    hide Strip, Parse, Serialize, SplitLines, HeaderLines, Join, NoHash, Read, Normalize;
    var rest := BrokenFirstPass();
    var once := Normalize(BROKEN, "");
    var d := Parse(once);
    BrokenReadAgain(d, rest);
    var inc := Read(BROKEN, d);
    NormalizeUnfolds(BROKEN, once);
    BIsPlain();
    BrokenIsStripped();
    var below := PrintedTop(inc, d.body);
    var twice := Normalize(BROKEN, once);
    var tail := "service: " + inc.service + "\n" + below;
    assert twice == "alert_id: A\nalert_name: A\nB\n" + tail by {
      assert "alert_id: " + "A" + "\n" + ("alert_name: " + "A\nB" + "\n" + tail) == "alert_id: A\nalert_name: A\nB\n" + tail;
    }
    BrokenNameParses(tail);
    ThirdPassDiffers(twice, tail);
  }

  lemma ThirdPassDiffers(twice: string, tail: string)
    requires twice == "alert_id: A\nalert_name: A\nB\n" + tail
    requires Parse(twice).metadata == [("alert_id", "A"), ("alert_name", "A")]
    ensures Normalize(BROKEN, twice) != twice
  {
    hide Strip, Parse, Serialize, SplitLines, HeaderLines, Join, Read, Normalize;
    var d := Parse(twice);
    var inc := Read(BROKEN, d);
    NormalizeUnfolds(BROKEN, twice);
    NamedRead(d);
    BIsPlain();
    BrokenIsStripped();
    var below := PrintedTop(inc, d.body);
    var thrice := Normalize(BROKEN, twice);
    assert thrice == "alert_id: A\nalert_name: A\n" + ("service: " + inc.service + "\n" + below) by {
      assert "alert_id: " + "A" + "\n" + ("alert_name: " + "A" + "\n" + ("service: " + inc.service + "\n" + below)) ==
        "alert_id: A\nalert_name: A\n" + ("service: " + inc.service + "\n" + below);
    }
    assert |"alert_id: A\nalert_name: A\n"| == 26 && thrice[26] == 's' && twice[26] == 'B';
  }

  lemma IdAndName()
    ensures var m: Metadata := [("alert_id", "A"), ("alert_name", "A")];
      && Get(m, "alert_id") == Some("A") && Get(m, "alert_name") == Some("A")
      && Get(m, "service").None? && Get(m, "services").None? && Get(m, "severity").None?
  {
    var m: Metadata := [("alert_id", "A"), ("alert_name", "A")];
    assert "alert_id"[6] == 'i' && "alert_name"[6] == 'n' && "alert_id"[0] == 'a' && "alert_name"[0] == 'a';
    assert "service"[0] == 's' && "services"[0] == 's' && "severity"[0] == 's';
    GetAt(m, 0);
    GetAt(m, 1);
    GetAbsent(m, "service");
    GetAbsent(m, "services");
    GetAbsent(m, "severity");
  }

  lemma NamedRead(d: Document)
    requires d.metadata == [("alert_id", "A"), ("alert_name", "A")]
    ensures var inc := Read(BROKEN, d);
      inc.alertId == "A" && inc.alertName == "A" && inc.service == "unknown" && inc.severity == "high"
  {
    hide Strip, AlertIdFromStem, TypeFromName, HeadingIn, SplitLines, Get;
    IdAndName();
    BIsPlain();
    StripOfNothing();
    NothingRead("");
  }
}
