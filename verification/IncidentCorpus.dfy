/** The script that completes the incident files of the knowledge corpus. A completed file
    carries seven fixed keys; `CorpusValidator` models the script that judges it. */
module IncidentCorpus {
  import opened Wrappers
  import opened Text
  import opened RagHeader

  // ---------- the pieces ----------

  function GetOr(m: Metadata, key: string, default: string): string {
    Get(m, key).GetOr(default)
  }

  function Replace(s: string, from: char, to: char): string {
    seq(|s|, i requires 0 <= i < |s| => if s[i] == from then to else s[i])
  }

  predicate IsLetter(c: char) {
    'a' <= c <= 'z' || 'A' <= c <= 'Z'
  }

  /** `str.title`: the first letter of every run of letters in upper case, the rest in lower. */
  function Title(s: string): string {
    seq(|s|, i requires 0 <= i < |s| =>
      if i > 0 && IsLetter(s[i - 1]) then LowerChar(s[i]) else UpperChar(s[i]))
  }

  function UpTo(s: string, c: char): string {
    if s == "" || s[0] == c then "" else [s[0]] + UpTo(s[1..], c)
  }

  predicate IsDigits(s: string) {
    s != "" && forall i :: 0 <= i < |s| ==> '0' <= s[i] <= '9'
  }

  /** An identifier from a stem such as "inc-42-disk-full". */
  function NumberedId(stem: string, prefix: string, caption: string): Option<string> {
    if prefix <= stem && IsDigits(UpTo(stem[|prefix|..], '-')) then Some(caption + UpTo(stem[|prefix|..], '-')) else None
  }

  function AlertIdFromStem(fileStem: string): string {
    var stem := Lower(fileStem);
    NumberedId(stem, "inc-", "INC-").GetOr(
      NumberedId(stem, "dw-", "DW-").GetOr(
        Upper(Replace(stem, '_', '-'))))
  }

  function InferAlertId(stem: string, m: Metadata): string {
    var existing := Strip(GetOr(m, "alert_id", ""));
    if existing != "" then existing else AlertIdFromStem(stem)
  }

  predicate IsSeverity(s: string) {
    s == "critical" || s == "high" || s == "warning" || s == "info"
  }

  function NormalizeSeverity(raw: string): string {
    var value := Lower(Strip(raw));
    if IsSeverity(value) then value
    else if value == "medium" || value == "moderate" then "high"
    else if value == "informational" || value == "information" then "info"
    else "high"
  }

  predicate IsHeading(line: string) {
    "# " <= Strip(line)
  }

  function HeadingIn(lines: seq<string>, fallback: string): string {
    if lines == [] then fallback
    else if IsHeading(lines[0]) then Strip(Strip(lines[0])[2..])
    else HeadingIn(lines[1..], fallback)
  }

  function CsvFirst(value: string): string {
    Strip(UpTo(value, ','))
  }

  predicate Contains(s: string, part: string) {
    exists i :: 0 <= i <= |s| && part <= s[i..]
  }

  function TypeFromName(name: string): string {
    if Contains(Lower(name), "latency") then "latency"
    else if Contains(Lower(name), "lag") then "replication"
    else "incident"
  }

  // ---------- one file ----------

  datatype Incident = Incident(
    alertId: string, alertName: string, service: string, severity: string,
    alertType: string, sourceSystem: string, sourceRef: string)
  {
    function Pairs(): Metadata {
      [("alert_id", alertId), ("alert_name", alertName), ("service", service), ("severity", severity),
       ("alert_type", alertType), ("source_system", sourceSystem), ("source_ref", sourceRef)]
    }
  }

  function FirstGiven(a: string, b: string): string {
    if a != "" then a else b
  }

  function AlertNameOf(stem: string, d: Document): string {
    FirstGiven(Strip(GetOr(d.metadata, "alert_name", "")),
      FirstGiven(Strip(GetOr(d.metadata, "title", "")),
        HeadingIn(SplitLines(d.body), Title(Replace(stem, '-', ' ')))))
  }

  function ServiceOf(m: Metadata): string {
    FirstGiven(Strip(GetOr(m, "service", "")), FirstGiven(CsvFirst(Strip(GetOr(m, "services", ""))), "unknown"))
  }

  function AlertTypeOf(m: Metadata, name: string): string {
    FirstGiven(Strip(GetOr(m, "alert_type", "")), TypeFromName(name))
  }

  /** The seven fields for a file, from what it says and from its name. */
  function Read(stem: string, d: Document): Incident {
    var m := d.metadata;
    var alertId := InferAlertId(stem, m);
    var alertName := AlertNameOf(stem, d);
    Incident(alertId, alertName, ServiceOf(m), NormalizeSeverity(GetOr(m, "severity", "")),
             AlertTypeOf(m, alertName), GetOr(m, "source_system", "internal"), GetOr(m, "source_ref", alertId))
  }

  function Normalize(stem: string, text: string): string {
    Serialize(Read(stem, Parse(text)).Pairs(), Parse(text).body)
  }

  // ---------- stripping and single lines ----------

  lemma StripNoBreak(s: string)
    requires NoBreak(s)
    ensures NoBreak(Strip(s))
  {
    var a, b := StripParts(s);
    forall i | 0 <= i < |Strip(s)| ensures !IsBreak(Strip(s)[i]) {
      assert Strip(s)[i] == s[|a| + i];
    }
  }

  lemma NotBlank(s: string, i: nat)
    requires i < |s| && !IsSpace(s[i])
    ensures Strip(s) != ""
  {
    var a, b := StripParts(s);
    assert forall j :: 0 <= j < |s| ==> s[j] == (a + Strip(s) + b)[j];
  }

  lemma UpToNoBreak(s: string, c: char)
    requires NoBreak(s)
    ensures NoBreak(UpTo(s, c))
  {
    if s != "" && s[0] != c {
      assert NoBreak(s[1..]);
      UpToNoBreak(s[1..], c);
    }
  }

  lemma CaseKeepsSpace(c: char)
    ensures IsSpace(LowerChar(c)) == IsSpace(c) && IsBreak(LowerChar(c)) == IsBreak(c)
    ensures IsSpace(UpperChar(c)) == IsSpace(c) && IsBreak(UpperChar(c)) == IsBreak(c)
  {
  }

  // ---------- parsed documents ----------

  ghost predicate OneLiners(m: Metadata) {
    forall i :: 0 <= i < |m| ==> NoBreak(m[i].1)
  }

  lemma PutOneLiner(m: Metadata, key: string, value: string)
    requires OneLiners(m) && NoBreak(value)
    ensures OneLiners(Put(m, key, value))
  {
    if m != [] && m[0].0 != key {
      PutOneLiner(m[1..], key, value);
    }
  }

  lemma {:induction false} ParsedOneLiners(lines: seq<string>, m: Metadata)
    requires OneLiners(m) && forall l :: l in lines ==> NoBreak(l)
    ensures OneLiners(ParseLines(lines, m).0)
    ensures forall l :: l in ParseLines(lines, m).1 ==> NoBreak(l)
  {
    if lines != [] && IsPair(lines[0]) {
      var raw := Strip(lines[0]);
      assert lines[0] in lines;
      StripNoBreak(lines[0]);
      StripNoBreak(raw[ColonAt(raw) + 1..]);
      PutOneLiner(m, KeyOf(raw), ValueOf(raw));
      ParsedOneLiners(lines[1..], Put(m, KeyOf(raw), ValueOf(raw)));
    }
  }

  lemma GetOneLiner(m: Metadata, key: string, default: string)
    requires OneLiners(m) && NoBreak(default)
    ensures NoBreak(GetOr(m, key, default)) && NoBreak(Strip(GetOr(m, key, default)))
  {
    if m != [] && m[0].0 != key {
      GetOneLiner(m[1..], key, default);
    }
    StripNoBreak(GetOr(m, key, default));
  }

  lemma {:induction false} JoinedIsPlain(lines: seq<string>)
    requires forall l :: l in lines ==> NoBreak(l)
    ensures Newlines(Join(lines)) == Join(lines)
  {
    if lines == [] {
    } else if |lines| == 1 {
      NoBreakIsPlain(lines[0]);
    } else {
      JoinedIsPlain(lines[1..]);
      NoBreakIsPlain(lines[0]);
      NewlinesConcat(lines[0], "\n" + Join(lines[1..]));
      assert ("\n" + Join(lines[1..]))[1..] == Join(lines[1..]);
      assert Join(lines) == lines[0] + ("\n" + Join(lines[1..]));
    }
  }

  lemma NoBreakIsPlain(s: string)
    requires NoBreak(s)
    ensures Newlines(s) == s
  {
  }

  lemma {:induction false} NewlinesConcat(a: string, b: string)
    ensures Newlines(a + b) == Newlines(a) + Newlines(b)
  {
    if a == "" {
      assert a + b == b;
    } else {
      NewlinesConcat(a[1..], b);
      assert (a + b)[1..] == a[1..] + b;
    }
  }

  lemma {:induction false} PlainPart(a: string, b: string, c: string)
    requires Newlines(a + b + c) == a + b + c
    ensures Newlines(b) == b
  {
    NewlinesConcat(a + b, c);
    NewlinesConcat(a, b);
    NewlinesLength(a);
    NewlinesLength(b);
    assert Newlines(a + b + c)[|a|..|a| + |b|] == Newlines(b);
    assert (a + b + c)[|a|..|a| + |b|] == b;
  }

  lemma NewlinesLength(s: string)
    ensures |Newlines(s)| == |s|
  {
  }

  lemma {:induction false} LStripNewlinesParts(s: string) returns (a: string)
    ensures s == a + LStripNewlines(s)
  {
    if s != "" && s[0] == '\n' {
      a := LStripNewlinesParts(s[1..]);
      a := [s[0]] + a;
    } else {
      a := "";
    }
  }

  /** A parsed value is one line, and a parsed body knows no break but the newline. */
  lemma ParsedIsPlain(text: string)
    ensures OneLiners(Parse(text).metadata)
    ensures Newlines(Strip(Parse(text).body)) == Strip(Parse(text).body)
  {
    hide Strip, ParseLines, SplitLines, Join, Newlines, NoBreak, LStripNewlines;
    LinesHaveNoBreak(text);
    ParsedOneLiners(SplitLines(text), []);
    var joined := Join(ParseLines(SplitLines(text), []).1);
    JoinedIsPlain(ParseLines(SplitLines(text), []).1);
    var a := LStripNewlinesParts(joined);
    var b, c := StripParts(LStripNewlines(joined));
    assert joined == (a + b) + Strip(LStripNewlines(joined)) + c;
    PlainPart(a + b, Strip(LStripNewlines(joined)), c);
  }

  // ---------- what a first pass makes ----------

  /** The file says something under this key. */
  predicate Gives(m: Metadata, key: string) {
    Strip(GetOr(m, key, "")) != ""
  }

  predicate HasHeading(body: string) {
    exists i :: 0 <= i < |SplitLines(body)| && IsHeading(SplitLines(body)[i])
  }

  /** Neither its metadata nor a heading names the file's alert. */
  predicate Nameless(d: Document) {
    !Gives(d.metadata, "alert_name") && !Gives(d.metadata, "title") && !HasHeading(d.body)
  }

  /** What has to be taken from the file's name is on one line. */
  ghost predicate StemIsPlain(stem: string, d: Document) {
    && (!Gives(d.metadata, "alert_id") ==> NoBreak(AlertIdFromStem(stem)))
    && (Nameless(d) ==> NoBreak(stem))
  }

  /** A stem such as "inc-42" or "dw-7-late". */
  predicate IsNumbered(stem: string) {
    NumberedId(Lower(stem), "inc-", "INC-").Some? || NumberedId(Lower(stem), "dw-", "DW-").Some?
  }

  predicate IsGap(c: char) {
    c == '-' || IsSpace(c)
  }

  predicate AllGaps(s: string) {
    forall i :: 0 <= i < |s| ==> IsGap(s[i])
  }

  predicate Solid(s: string) {
    Trimmed(s) && s != "" && NoBreak(s)
  }

  /** Fit to be printed: single lines, with a known severity and neither service nor type
      blank. */
  ghost predicate Plain(inc: Incident) {
    && NoBreak(inc.alertId) && NoBreak(inc.alertName)
    && Solid(inc.service) && Solid(inc.alertType)
    && IsSeverity(inc.severity)
    && NoBreak(inc.sourceSystem) && NoBreak(inc.sourceRef)
  }

  /** Neither the identifier nor the name is blank. */
  predicate Named(inc: Incident) {
    Strip(inc.alertId) != "" && Strip(inc.alertName) != ""
  }

  /** Character by character the same white space and breaks. */
  ghost predicate SameShape(s: string, t: string) {
    |s| == |t| && forall i :: 0 <= i < |s| ==> IsSpace(s[i]) == IsSpace(t[i]) && IsBreak(s[i]) == IsBreak(t[i])
  }

  lemma CaseKeepsShape(s: string)
    ensures SameShape(s, Lower(s)) && SameShape(s, Upper(s))
  {
    forall i | 0 <= i < |s|
      ensures IsSpace(Lower(s)[i]) == IsSpace(s[i]) && IsBreak(Lower(s)[i]) == IsBreak(s[i])
      ensures IsSpace(Upper(s)[i]) == IsSpace(s[i]) && IsBreak(Upper(s)[i]) == IsBreak(s[i])
    {
      CaseKeepsSpace(s[i]);
    }
  }

  lemma UnderscoreKeepsShape(s: string)
    ensures SameShape(s, Replace(s, '_', '-'))
  {
  }

  /** Character by character, what title case makes of the stem. */
  lemma TitleShape(stem: string)
    ensures var t := Title(Replace(stem, '-', ' '));
      |t| == |stem| && forall i :: 0 <= i < |t| ==> IsBreak(t[i]) == IsBreak(stem[i]) && IsSpace(t[i]) == IsGap(stem[i])
  {
    var r := Replace(stem, '-', ' ');
    var t := Title(r);
    forall i | 0 <= i < |t| ensures IsBreak(t[i]) == IsBreak(stem[i]) && IsSpace(t[i]) == IsGap(stem[i]) {
      CaseKeepsSpace(r[i]);
      HyphenIsGap(stem[i]);
    }
  }

  lemma HyphenIsGap(c: char)
    ensures IsSpace(' ') && !IsBreak(' ') && !IsBreak('-')
    ensures IsSpace(if c == '-' then ' ' else c) == IsGap(c)
  {
  }

  /** A numbered identifier is solid, and its stem begins with a letter. */
  lemma NumberedShape(stem: string, prefix: string, caption: string)
    requires NumberedId(stem, prefix, caption).Some? && Solid(caption)
    requires prefix != "" && !IsSpace(prefix[0])
    ensures Solid(NumberedId(stem, prefix, caption).value) && !AllSpace(stem)
  {
    var digits := UpTo(stem[|prefix|..], '-');
    var id := caption + digits;
    assert stem[0] == prefix[0];
    forall i | 0 <= i < |digits| ensures !IsSpace(digits[i]) && !IsBreak(digits[i]) {
      DigitIsSolid(digits[i]);
    }
    assert id[0] == caption[0] && id[|id| - 1] == digits[|digits| - 1];
  }

  lemma DigitIsSolid(c: char)
    requires '0' <= c <= '9'
    ensures !IsSpace(c) && !IsBreak(c)
  {
  }

  lemma CaptionsAreSolid()
    ensures Solid("INC-") && Solid("DW-") && !IsSpace("inc-"[0]) && !IsSpace("dw-"[0])
  {
  }

  /** The identifier from a numbered stem is solid; any other keeps the stem's shape. */
  lemma AlertIdShape(stem: string)
    ensures IsNumbered(stem) ==> Solid(AlertIdFromStem(stem)) && !AllSpace(stem)
    ensures !IsNumbered(stem) ==> SameShape(stem, AlertIdFromStem(stem))
  {
    hide Solid, NumberedId;
    CaseKeepsShape(stem);
    CaptionsAreSolid();
    if NumberedId(Lower(stem), "inc-", "INC-").Some? {
      NumberedShape(Lower(stem), "inc-", "INC-");
    } else if NumberedId(Lower(stem), "dw-", "DW-").Some? {
      NumberedShape(Lower(stem), "dw-", "DW-");
    } else {
      UnderscoreKeepsShape(Lower(stem));
      CaseKeepsShape(Replace(Lower(stem), '_', '-'));
    }
  }

  /** A name on one line is all that is asked of it. */
  lemma OneLineIsPlain(stem: string, d: Document)
    requires NoBreak(stem)
    ensures StemIsPlain(stem, d)
  {
    AlertIdShape(stem);
  }

  lemma SolidStrip(s: string)
    requires NoBreak(s) && Strip(s) != ""
    ensures Solid(Strip(s)) && Strip(Strip(s)) == Strip(s)
  {
    StripIsTrimmed(s);
    StripNoBreak(s);
    StripOfTrimmed(Strip(s));
  }

  /** A value taken from the metadata, stripped, is blank or fit to be printed as it is. */
  lemma FieldFits(m: Metadata, key: string)
    requires OneLiners(m)
    ensures var v := Strip(GetOr(m, key, "")); v == "" || (Solid(v) && Strip(v) == v)
  {
    GetOneLiner(m, key, "");
    if Strip(GetOr(m, key, "")) != "" {
      SolidStrip(GetOr(m, key, ""));
    }
  }

  lemma ServiceFits(m: Metadata)
    requires OneLiners(m)
    ensures Solid(ServiceOf(m))
  {
    FieldFits(m, "service");
    GetOneLiner(m, "services", "");
    var csv := Strip(GetOr(m, "services", ""));
    UpToNoBreak(csv, ',');
    if CsvFirst(csv) != "" {
      SolidStrip(UpTo(csv, ','));
    }
  }

  lemma TypeFits(m: Metadata, name: string)
    requires OneLiners(m)
    ensures Solid(AlertTypeOf(m, name))
  {
    FieldFits(m, "alert_type");
    assert Solid("latency") && Solid("replication") && Solid("incident");
  }

  /** The first heading, stripped and not blank; the fallback where there is none. */
  lemma {:induction false} HeadingExactly(lines: seq<string>, fallback: string)
    requires forall l :: l in lines ==> NoBreak(l)
    ensures (exists i :: 0 <= i < |lines| && IsHeading(lines[i])) ==> Solid(HeadingIn(lines, fallback))
    ensures (forall i :: 0 <= i < |lines| ==> !IsHeading(lines[i])) ==> HeadingIn(lines, fallback) == fallback
  {
    if lines != [] {
      if IsHeading(lines[0]) {
        HeadingIsSolid(lines[0]);
      } else {
        HeadingExactly(lines[1..], fallback);
        if i :| 0 <= i < |lines| && IsHeading(lines[i]) {
          assert lines[1..][i - 1] == lines[i];
        }
      }
    }
  }

  lemma HeadingIsSolid(line: string)
    requires IsHeading(line) && NoBreak(line)
    ensures Solid(Strip(Strip(line)[2..]))
  {
    var s := Strip(line);
    StripIsTrimmed(line);
    StripNoBreak(line);
    StripNoBreak(s[2..]);
    assert s[1] == ' ' && !IsSpace(s[|s| - 1]);
    NotBlank(s[2..], |s| - 3);
    StripIsTrimmed(s[2..]);
  }

  lemma IdNoBreak(stem: string, m: Metadata)
    requires OneLiners(m) && (!Gives(m, "alert_id") ==> NoBreak(AlertIdFromStem(stem)))
    ensures NoBreak(InferAlertId(stem, m))
  {
    FieldFits(m, "alert_id");
  }

  lemma NameNoBreak(stem: string, d: Document)
    requires OneLiners(d.metadata) && (Nameless(d) ==> NoBreak(stem))
    ensures NoBreak(AlertNameOf(stem, d))
  {
    hide Strip, IsHeading, SplitLines, HeadingIn, Title, Replace;
    TitleShape(stem);
    LinesHaveNoBreak(d.body);
    HeadingExactly(SplitLines(d.body), Title(Replace(stem, '-', ' ')));
    FieldFits(d.metadata, "alert_name");
    FieldFits(d.metadata, "title");
  }

  /** Whatever the file says, what is read from it is on single lines, and everything but
      the identifier and the name is never blank. */
  lemma ReadIsPlain(stem: string, d: Document)
    requires StemIsPlain(stem, d) && OneLiners(d.metadata)
    ensures Plain(Read(stem, d))
  {
    hide AlertNameOf, ServiceOf, AlertTypeOf, InferAlertId, Strip, Gives, HasHeading, AlertIdFromStem;
    IdNoBreak(stem, d.metadata);
    NameNoBreak(stem, d);
    TypeFits(d.metadata, AlertNameOf(stem, d));
    ServiceFits(d.metadata);
    GetOneLiner(d.metadata, "source_system", "internal");
    GetOneLiner(d.metadata, "source_ref", InferAlertId(stem, d.metadata));
  }

  // ---------- headings do not mind white space around the text ----------

  lemma StripOuter(a: string, s: string, b: string)
    requires AllSpace(a) && AllSpace(b)
    ensures Strip(a + s + b) == Strip(s)
  {
    hide Strip, AllSpace;
    var c, d := StripParts(s);
    StripIsTrimmed(s);
    SpacesJoin(a, c);
    SpacesJoin(d, b);
    StripSpaces(a + c, Strip(s), d + b);
    assert a + (c + Strip(s) + d) + b == (a + c) + Strip(s) + (d + b);
  }

  lemma SpacesJoin(a: string, b: string)
    requires AllSpace(a) && AllSpace(b)
    ensures AllSpace(a + b)
  {
  }

  lemma OneSpace(c: char)
    requires IsSpace(c)
    ensures AllSpace([c]) && AllSpace("")
  {
  }

  /** A line may gain or lose white space at its ends. */
  lemma HeadingOfLine(c: char, line: string, fallback: string)
    requires IsSpace(c)
    ensures HeadingIn([[c] + line], fallback) == HeadingIn([line], fallback)
    ensures HeadingIn([line + [c]], fallback) == HeadingIn([line], fallback)
  {
    hide Strip, IsSpace, AllSpace;
    OneSpace(c);
    StripOuter([c], line, "");
    StripOuter("", line, [c]);
    assert [c] + line + "" == [c] + line && "" + line + [c] == line + [c];
    assert [line][1..] == [] && [[c] + line][1..] == [] && [line + [c]][1..] == [];
  }

  lemma HeadingOfBlank(c: char, fallback: string)
    requires IsSpace(c)
    ensures HeadingIn([""], fallback) == fallback && HeadingIn([[c]], fallback) == fallback
  {
    hide IsSpace;
    StripOfTrimmed("");
    HeadingOfLine(c, "", fallback);
    assert "" + [c] == [c] && [""][1..] == [];
  }

  lemma {:induction false} HeadingConcat(a: seq<string>, b: seq<string>, fallback: string)
    ensures HeadingIn(a + b, fallback) == HeadingIn(a, HeadingIn(b, fallback))
  {
    hide IsHeading, Strip;
    if a == [] {
      assert a + b == b;
    } else {
      HeadingConcat(a[1..], b, fallback);
      assert (a + b)[1..] == a[1..] + b;
    }
  }

  lemma SplitSomething(s: string)
    requires s != ""
    ensures SplitLines(s) != []
  {
  }

  lemma LeadingSpace(c: char, s: string, fallback: string)
    requires IsSpace(c)
    ensures HeadingIn(SplitLines([c] + s), fallback) == HeadingIn(SplitLines(s), fallback)
  {
    hide IsSpace, IsHeading;
    var lines := SplitLines(s);
    assert ([c] + s)[1..] == s;
    HeadingOfBlank(c, HeadingIn(lines, fallback));
    if IsBreak(c) {
      HeadingConcat([""], lines, fallback);
    } else if lines != [] {
      HeadingOfLine(c, lines[0], HeadingIn(lines[1..], fallback));
      HeadingConcat([lines[0]], lines[1..], fallback);
      HeadingConcat([[c] + lines[0]], lines[1..], fallback);
      assert lines == [lines[0]] + lines[1..];
    }
  }

  lemma {:induction false} LeadingSpaces(a: string, s: string, fallback: string)
    requires AllSpace(a)
    ensures HeadingIn(SplitLines(a + s), fallback) == HeadingIn(SplitLines(s), fallback)
  {
    hide SplitLines, HeadingIn, IsSpace;
    if a == "" {
      assert a + s == s;
    } else {
      LeadingSpaces(a[1..], s, fallback);
      LeadingSpace(a[0], a[1..] + s, fallback);
      assert a + s == [a[0]] + (a[1..] + s);
    }
  }

  /** What one more character of white space at the end does to the lines: nothing, one more
      blank line, or a longer last line. */
  ghost predicate EndsAlike(longer: seq<string>, lines: seq<string>, c: char) {
    || longer == lines
    || longer == lines + [""]
    || longer == lines + [[c]]
    || (lines != [] && longer == lines[..|lines| - 1] + [lines[|lines| - 1] + [c]])
  }

  /** A character that does not break goes to the first line. */
  function OnFirst(h: char, lines: seq<string>): seq<string> {
    if lines == [] then [[h]] else [[h] + lines[0]] + lines[1..]
  }

  lemma EndsAlikeOnFirst(h: char, longer: seq<string>, lines: seq<string>, c: char)
    requires EndsAlike(longer, lines, c) && longer != []
    ensures EndsAlike(OnFirst(h, longer), OnFirst(h, lines), c)
  {
    var l, m := OnFirst(h, longer), OnFirst(h, lines);
    if longer == lines {
    } else if lines == [] {
      assert longer == [""] || longer == [[c]];
      assert [h] + "" == [h];
      assert longer == [""] ==> l == m;
      assert longer == [[c]] ==> l == m[..0] + [m[0] + [c]];
    } else if longer == lines + [""] {
      assert l == m + [""];
    } else if longer == lines + [[c]] {
      assert l == m + [[c]];
    } else if |lines| == 1 {
      assert [h] + (lines[0] + [c]) == ([h] + lines[0]) + [c];
      assert l == m[..0] + [m[0] + [c]];
    } else {
      assert m[|m| - 1] == lines[|lines| - 1];
      assert l == m[..|m| - 1] + [m[|m| - 1] + [c]];
    }
  }

  lemma EndsAlikeBreak(longer: seq<string>, lines: seq<string>, c: char)
    requires EndsAlike(longer, lines, c)
    ensures EndsAlike([""] + longer, [""] + lines, c)
  {
    var l, m := [""] + longer, [""] + lines;
    if longer == lines {
    } else if longer == lines + [""] {
      assert l == m + [""];
    } else if longer == lines + [[c]] {
      assert l == m + [[c]];
    } else {
      assert l == m[..|m| - 1] + [m[|m| - 1] + [c]];
    }
  }

  lemma {:induction false} SplitWithTrailing(s: string, c: char)
    ensures EndsAlike(SplitLines(s + [c]), SplitLines(s), c)
  {
    hide EndsAlike;
    if s == "" {
      TrailingAlone(c);
      assert s + [c] == [c];
    } else {
      var t := s[1..];
      SplitWithTrailing(t, c);
      SplitSomething(t + [c]);
      assert (s + [c])[1..] == t + [c] && (s + [c])[0] == s[0];
      if IsBreak(s[0]) {
        EndsAlikeBreak(SplitLines(t + [c]), SplitLines(t), c);
      } else {
        EndsAlikeOnFirst(s[0], SplitLines(t + [c]), SplitLines(t), c);
        assert SplitLines(s + [c]) == OnFirst(s[0], SplitLines(t + [c]));
        assert SplitLines(s) == OnFirst(s[0], SplitLines(t));
      }
    }
  }

  lemma TrailingAlone(c: char)
    ensures EndsAlike(SplitLines([c]), SplitLines(""), c)
  {
    assert [c][1..] == "" && SplitLines("") == [];
    assert [] + [""] == [""] && [] + [[c]] == [[c]];
  }

  lemma TrailingSpace(s: string, c: char, fallback: string)
    requires IsSpace(c)
    ensures HeadingIn(SplitLines(s + [c]), fallback) == HeadingIn(SplitLines(s), fallback)
  {
    hide IsSpace, SplitLines, HeadingIn;
    var longer, lines := SplitLines(s + [c]), SplitLines(s);
    SplitWithTrailing(s, c);
    HeadingOfBlank(c, fallback);
    HeadingConcat(lines, [""], fallback);
    HeadingConcat(lines, [[c]], fallback);
    if lines != [] {
      var init, last := lines[..|lines| - 1], lines[|lines| - 1];
      assert lines == init + [last];
      HeadingOfLine(c, last, fallback);
      HeadingConcat(init, [last], fallback);
      HeadingConcat(init, [last + [c]], fallback);
    }
  }

  lemma {:induction false} TrailingSpaces(s: string, b: string, fallback: string)
    requires AllSpace(b)
    ensures HeadingIn(SplitLines(s + b), fallback) == HeadingIn(SplitLines(s), fallback)
  {
    hide SplitLines, HeadingIn, IsSpace;
    if b == "" {
      assert s + b == s;
    } else {
      var n := |b| - 1;
      TrailingSpaces(s, b[..n], fallback);
      TrailingSpace(s + b[..n], b[n], fallback);
      assert s + b == (s + b[..n]) + [b[n]];
    }
  }

  /** Stripping a body does not change its first heading. */
  lemma HeadingOfStripped(body: string, fallback: string)
    ensures HeadingIn(SplitLines(Strip(body)), fallback) == HeadingIn(SplitLines(body), fallback)
  {
    hide SplitLines, HeadingIn, Strip, AllSpace;
    var a, b := StripParts(body);
    LeadingSpaces(a, Strip(body) + b, fallback);
    TrailingSpaces(Strip(body), b, fallback);
    assert body == a + (Strip(body) + b);
  }

  // ---------- reading a completed file again ----------

  lemma {:induction false} GetClean(m: Metadata, key: string)
    requires Printable(m)
    ensures Get(Clean(m), key) ==
      if Get(m, key).Some? && Strip(Get(m, key).value) != "" then Some(Strip(Get(m, key).value)) else None
  {
    if m != [] {
      GetClean(m[1..], key);
      if Strip(m[0].1) != "" {
        assert Clean(m)[1..] == Clean(m[1..]);
      } else {
        assert Clean(m) == Clean(m[1..]);
      }
    }
  }

  ghost predicate DistinctKeys(m: Metadata) {
    forall i, j :: 0 <= i < j < |m| ==> m[i].0 != m[j].0
  }

  lemma {:induction false} GetAbsent(m: Metadata, key: string)
    requires forall i :: 0 <= i < |m| ==> m[i].0 != key
    ensures Get(m, key).None?
  {
    if m != [] {
      GetAbsent(m[1..], key);
    }
  }

  lemma {:induction false} GetAt(m: Metadata, i: nat)
    requires i < |m| && DistinctKeys(m)
    ensures Get(m, m[i].0) == Some(m[i].1)
  {
    if i > 0 {
      assert forall j, k :: 0 <= j < k < |m[1..]| ==> m[1..][j] == m[j + 1] && m[1..][k] == m[k + 1];
      GetAt(m[1..], i - 1);
    }
  }

  lemma {:induction false} DistinctIsPrintable(m: Metadata)
    requires DistinctKeys(m) && OneLiners(m) && forall i :: 0 <= i < |m| ==> GoodKey(m[i].0)
    ensures Printable(m)
  {
    if m != [] {
      assert forall i :: 0 <= i < |m[1..]| ==> m[1..][i] == m[i + 1];
      GetAbsent(m[1..], m[0].0);
      DistinctIsPrintable(m[1..]);
    }
  }

  lemma KeysDiffer(inc: Incident)
    ensures DistinctKeys(inc.Pairs())
  {
    assert "alert_name"[6] != "alert_type"[6] && "alert_name"[0] != "source_ref"[0] && "alert_type"[0] != "source_ref"[0];
    assert "alert_id"[0] != "severity"[0];
  }

  lemma KeysAreGood(inc: Incident)
    ensures forall i :: 0 <= i < 7 ==> GoodKey(inc.Pairs()[i].0)
  {
    hide GoodKey;
    forall i | 0 <= i < 7 ensures GoodKey(inc.Pairs()[i].0) {
      PlainKey(inc.Pairs()[i].0);
    }
  }

  lemma PlainKey(key: string)
    requires forall i :: 0 <= i < |key| ==> 'a' <= key[i] <= 'z' || key[i] == '_'
    ensures GoodKey(key)
  {
  }

  lemma PlainIsPrintable(inc: Incident)
    requires Plain(inc)
    ensures Printable(inc.Pairs())
  {
    hide Strip, NoBreak, GoodKey, Trimmed;
    KeysDiffer(inc);
    KeysAreGood(inc);
    SeverityIsOneLine(inc.severity);
    DistinctIsPrintable(inc.Pairs());
  }

  lemma SeverityIsOneLine(s: string)
    requires IsSeverity(s)
    ensures NoBreak(s)
  {
  }

  /** What parsing a printed incident finds under its `i`-th key. */
  lemma Reread(inc: Incident, i: nat)
    requires Plain(inc) && i < 7
    ensures var (key, value) := inc.Pairs()[i];
      Get(Clean(inc.Pairs()), key) == if Strip(value) != "" then Some(Strip(value)) else None
  {
    hide Clean, Strip;
    PlainIsPrintable(inc);
    KeysDiffer(inc);
    GetAt(inc.Pairs(), i);
    GetClean(inc.Pairs(), inc.Pairs()[i].0);
  }

  lemma StripOfNothing()
    ensures Strip("") == ""
  {
  }

  /** Reading a field again gives it stripped; a blank one is gone. */
  lemma RereadField(inc: Incident, i: nat)
    requires Plain(inc) && i < 7
    ensures var (key, value) := inc.Pairs()[i];
      Strip(GetOr(Clean(inc.Pairs()), key, "")) == Strip(value)
  {
    hide Clean, Strip;
    Reread(inc, i);
    StripIsTrimmed(inc.Pairs()[i].1);
    StripOfTrimmed(Strip(inc.Pairs()[i].1));
    StripOfTrimmed("");
  }

  lemma NoTitle(inc: Incident)
    requires Plain(inc)
    ensures Get(Clean(inc.Pairs()), "title").None?
  {
    hide Clean, Strip, Plain;
    PlainIsPrintable(inc);
    assert forall i :: 0 <= i < 7 ==> inc.Pairs()[i].0[0] != 't';
    GetAbsent(inc.Pairs(), "title");
    GetClean(inc.Pairs(), "title");
  }

  /** Stripped, unless that leaves nothing. */
  function Kept(s: string): string {
    FirstGiven(Strip(s), s)
  }

  /** The fields a completed file is read back with: stripped, a blank identifier or name
      inferred anew as it was, and the two optional ones given their defaults when they came
      out blank. */
  function Settled(inc: Incident): Incident {
    inc.(alertId := Kept(inc.alertId), alertName := Kept(inc.alertName),
         sourceSystem := FirstGiven(Strip(inc.sourceSystem), "internal"),
         sourceRef := FirstGiven(Strip(inc.sourceRef), Kept(inc.alertId)))
  }

  /** A blank identifier or name is what the file's own name and headings give. */
  ghost predicate FromName(stem: string, inc: Incident, body: string) {
    && (Strip(inc.alertId) == "" ==> inc.alertId == AlertIdFromStem(stem))
    && (Strip(inc.alertName) == "" ==>
          inc.alertName == HeadingIn(SplitLines(body), Title(Replace(stem, '-', ' '))))
  }

  lemma ReadIsFromName(stem: string, d: Document)
    requires OneLiners(d.metadata)
    ensures FromName(stem, Read(stem, d), d.body)
    ensures FromName(stem, Read(stem, d), Strip(d.body))
  {
    hide HeadingIn, SplitLines, Strip, AlertIdFromStem, ServiceOf, AlertTypeOf, NormalizeSeverity;
    FieldFits(d.metadata, "alert_id");
    FieldFits(d.metadata, "alert_name");
    FieldFits(d.metadata, "title");
    HeadingOfStripped(d.body, Title(Replace(stem, '-', ' ')));
  }

  lemma LowerIsKept(s: string)
    requires forall i :: 0 <= i < |s| ==> 'a' <= s[i] <= 'z'
    ensures Lower(s) == s
  {
  }

  lemma SeverityIsKept(s: string)
    requires IsSeverity(s)
    ensures Strip(s) == s && NormalizeSeverity(s) == s
  {
    assert forall i :: 0 <= i < |s| ==> 'a' <= s[i] <= 'z';
    assert Trimmed(s);
    StripOfTrimmed(s);
    LowerIsKept(s);
  }

  lemma SolidIsKept(s: string)
    requires Solid(s)
    ensures Strip(s) == s
  {
    StripOfTrimmed(s);
  }

  lemma SeverityReread(inc: Incident)
    requires Plain(inc)
    ensures NormalizeSeverity(GetOr(Clean(inc.Pairs()), "severity", "")) == inc.severity
  {
    hide Clean, NormalizeSeverity;
    SeverityIsKept(inc.severity);
    Reread(inc, 3);
  }

  lemma ReadAgain(stem: string, inc: Incident, body: string)
    requires Plain(inc) && FromName(stem, inc, body)
    ensures Read(stem, Document(Clean(inc.Pairs()), body)) == Settled(inc)
  {
    hide AlertIdFromStem, HeadingIn, CsvFirst, TypeFromName, NormalizeSeverity, Strip, Clean, NoBreak, Trimmed, SplitLines;
    StripOfNothing();
    SolidIsKept(inc.service);
    SolidIsKept(inc.alertType);
    SeverityReread(inc);
    NoTitle(inc);
    RereadField(inc, 0);
    RereadField(inc, 1);
    RereadField(inc, 2);
    RereadField(inc, 4);
    Reread(inc, 5);
    Reread(inc, 6);
  }

  lemma InternalIsPlain()
    ensures NoBreak("internal") && Strip("internal") == "internal"
  {
    StripOfTrimmed("internal");
  }

  lemma StripTwice(s: string)
    ensures Strip(Strip(s)) == Strip(s) && Strip(Kept(s)) == Strip(s) && Kept(Kept(s)) == Kept(s)
    ensures NoBreak(s) ==> NoBreak(Strip(s)) && NoBreak(Kept(s))
  {
    hide Strip, Trimmed, NoBreak;
    StripIsTrimmed(s);
    StripOfTrimmed(Strip(s));
    if NoBreak(s) {
      StripNoBreak(s);
    }
  }

  lemma SettledIsPlain(inc: Incident)
    requires Plain(inc)
    ensures Plain(Settled(inc)) && Settled(Settled(inc)) == Settled(inc)
    ensures Named(Settled(inc)) <==> Named(inc)
  {
    hide Strip, Trimmed, NoBreak;
    InternalIsPlain();
    StripTwice(inc.alertId);
    StripTwice(inc.alertName);
    StripTwice(inc.sourceSystem);
    StripTwice(inc.sourceRef);
  }

  lemma SettledIsFromName(stem: string, inc: Incident, body: string)
    requires FromName(stem, inc, body)
    ensures FromName(stem, Settled(inc), body)
  {
    hide Strip, HeadingIn, SplitLines, AlertIdFromStem;
    StripTwice(inc.alertId);
    StripTwice(inc.alertName);
  }

  /** One more pass over a printed incident settles its fields and keeps its body. */
  lemma NextPass(stem: string, inc: Incident, body: string)
    requires Plain(inc) && FromName(stem, inc, Newlines(Strip(body)))
    ensures Parse(Serialize(inc.Pairs(), body)) == Document(Clean(inc.Pairs()), Newlines(Strip(body)))
    ensures Read(stem, Parse(Serialize(inc.Pairs(), body))) == Settled(inc)
    ensures Normalize(stem, Serialize(inc.Pairs(), body)) == Serialize(Settled(inc).Pairs(), Newlines(Strip(body)))
  {
    hide Parse, Serialize, Read, FromName, Settled, Plain, Strip, Newlines, Clean;
    PlainIsPrintable(inc);
    RoundTrip(inc.Pairs(), body);
    ReadAgain(stem, inc, Newlines(Strip(body)));
  }

  // ---------- the theorems ----------

  lemma NormalizeUnfolds(stem: string, text: string)
    ensures Normalize(stem, text) == Serialize(Read(stem, Parse(text)).Pairs(), Parse(text).body)
  {
  }

  lemma BodyStripsOnce(inc: Incident, body: string)
    ensures Serialize(inc.Pairs(), Strip(body)) == Serialize(inc.Pairs(), body)
    ensures Strip(Strip(body)) == Strip(body)
  {
    StripIsTrimmed(body);
    StripOfTrimmed(Strip(body));
  }

  /** What the first pass and the second one print. */
  lemma TwoPasses(stem: string, text: string)
    requires StemIsPlain(stem, Parse(text))
    ensures var d := Parse(text);
      var inc := Read(stem, d);
      && Plain(inc) && FromName(stem, inc, Strip(d.body)) && Newlines(Strip(d.body)) == Strip(d.body)
      && Normalize(stem, text) == Serialize(inc.Pairs(), d.body)
      && Parse(Normalize(stem, text)) == Document(Clean(inc.Pairs()), Strip(d.body))
      && Read(stem, Parse(Normalize(stem, text))) == Settled(inc)
      && Normalize(stem, Normalize(stem, text)) == Serialize(Settled(inc).Pairs(), d.body)
  {
    hide Normalize, Read, Serialize, Settled, Parse, Strip, Newlines, FromName, Plain, Clean, StemIsPlain;
    var d := Parse(text);
    var inc := Read(stem, d);
    ParsedIsPlain(text);
    ReadIsPlain(stem, d);
    ReadIsFromName(stem, d);
    NormalizeUnfolds(stem, text);
    NextPass(stem, inc, d.body);
    BodyStripsOnce(Settled(inc), d.body);
  }

  /** Completing an incident file reaches a fixed point after two passes at most, as long as
      nothing with a line break has to be taken from its name. */
  lemma TwoPassesSettle(stem: string, text: string)
    requires StemIsPlain(stem, Parse(text))
    ensures var once := Normalize(stem, text);
      var twice := Normalize(stem, once);
      Normalize(stem, twice) == twice
  {
    hide Normalize, Read, Serialize, Settled, Parse, Strip, Newlines, FromName, Plain, Clean, StemIsPlain;
    var d := Parse(text);
    var inc := Read(stem, d);
    TwoPasses(stem, text);
    SettledIsPlain(inc);
    SettledIsFromName(stem, inc, Strip(d.body));
    NextPass(stem, Settled(inc), d.body);
    BodyStripsOnce(Settled(inc), d.body);
  }

  /** The header can be read off the text that it was joined into. */
  lemma HeaderIsPrinted(m: Metadata, n: Metadata, body: string)
    requires Printable(m) && Printable(n) && Serialize(m, body) == Serialize(n, body)
    ensures HeaderLines(m) == HeaderLines(n) || HeaderLines(m) == [] || HeaderLines(n) == []
  {
    hide HeaderLines, Strip, Printable, Join;
    var end := "\n\n" + Strip(body) + "\n";
    assert Serialize(m, body) == Join(HeaderLines(m)) + end && Serialize(n, body) == Join(HeaderLines(n)) + end;
    SameFront(Join(HeaderLines(m)), Join(HeaderLines(n)), end);
    SplitPrinted(m, "");
    SplitPrinted(n, "");
    assert SplitLines("") == [];
    assert HeaderLines(m) + [] == HeaderLines(m) && HeaderLines(n) + [] == HeaderLines(n);
  }

  lemma SameFront(a: string, b: string, end: string)
    requires a + end == b + end
    ensures a == b
  {
    assert |a| == |b| && (a + end)[..|a|] == a && (b + end)[..|b|] == b;
  }

  predicate NoColon(key: string) {
    forall i :: 0 <= i < |key| ==> key[i] != ':'
  }

  /** A printed line tells its key and its value. */
  lemma SameLine(k: string, v: string, l: string, w: string)
    requires NoColon(k) && NoColon(l) && k + ": " + v == l + ": " + w
    ensures k == l && v == w
  {
    hide ColonAt;
    var line := k + ": " + v;
    ColonAfterKey(k, " " + v);
    ColonAfterKey(l, " " + w);
    assert line == k + ":" + (" " + v) && line == l + ":" + (" " + w);
    assert line[..|k|] == k && line[..|l|] == l && line[|k| + 2..] == v && line[|l| + 2..] == w;
  }

  /** Every header line is that of some pair. */
  lemma {:induction false} LineHasPair(m: Metadata, line: string) returns (i: nat)
    requires line in HeaderLines(m)
    ensures i < |m| && line == m[i].0 + ": " + m[i].1
  {
    hide Strip;
    if Strip(m[0].1) != "" && line == m[0].0 + ": " + m[0].1 {
      i := 0;
    } else {
      i := LineHasPair(m[1..], line);
      i := i + 1;
    }
  }

  ghost predicate SameKeys(m: Metadata, n: Metadata) {
    && |m| == |n| && DistinctKeys(m)
    && forall i :: 0 <= i < |m| ==> m[i].0 == n[i].0 && NoColon(m[i].0)
  }

  /** Both blank, or the same. */
  predicate PrintsAs(v: string, w: string) {
    v == w || (Strip(v) == "" && Strip(w) == "")
  }

  lemma SameKeysRest(m: Metadata, n: Metadata)
    requires SameKeys(m, n) && m != []
    ensures SameKeys(m[1..], n[1..])
    ensures forall i :: 0 < i < |m| ==> m[i].0 != m[0].0
  {
    assert forall i :: 0 <= i < |m[1..]| ==> m[1..][i] == m[i + 1] && n[1..][i] == n[i + 1];
  }

  /** The line of the first pair of one is no line of the rest of the other. */
  lemma NotAmongRest(m: Metadata, n: Metadata)
    requires SameKeys(m, n) && m != []
    ensures m[0].0 + ": " + m[0].1 !in HeaderLines(n[1..])
  {
    hide HeaderLines;
    SameKeysRest(m, n);
    var line := m[0].0 + ": " + m[0].1;
    if line in HeaderLines(n[1..]) {
      var i := LineHasPair(n[1..], line);
      assert n[1..][i] == n[i + 1] && m[i + 1].0 == n[i + 1].0;
      SameLine(m[0].0, m[0].1, n[i + 1].0, n[i + 1].1);
      assert false;
    }
  }

  lemma {:induction false} HeaderTells(m: Metadata, n: Metadata, i: nat)
    requires SameKeys(m, n) && HeaderLines(m) == HeaderLines(n) && i < |m|
    ensures PrintsAs(m[i].1, n[i].1)
  {
    hide Strip, NoColon, HeaderLines;
    SameKeysRest(m, n);
    SameKeysSwap(m, n);
    HeaderUnfolds(m, []);
    HeaderUnfolds(n, []);
    var x, y := m[0].0 + ": " + m[0].1, n[0].0 + ": " + n[0].1;
    assert HeaderLines(m) + [] == HeaderLines(m) && HeaderLines(n) + [] == HeaderLines(n);
    assert HeaderLines(m[1..]) + [] == HeaderLines(m[1..]) && HeaderLines(n[1..]) + [] == HeaderLines(n[1..]);
    if Strip(m[0].1) != "" && Strip(n[0].1) != "" {
      assert HeaderLines(m)[0] == x && HeaderLines(n)[0] == y;
      SameLine(m[0].0, m[0].1, n[0].0, n[0].1);
      assert HeaderLines(m)[1..] == HeaderLines(m[1..]) && HeaderLines(n)[1..] == HeaderLines(n[1..]);
    } else if Strip(m[0].1) != "" {
      NotAmongRest(m, n);
      assert false;
    } else if Strip(n[0].1) != "" {
      NotAmongRest(n, m);
      assert false;
    }
    if i > 0 {
      HeaderTells(m[1..], n[1..], i - 1);
    }
  }

  lemma SameKeysSwap(m: Metadata, n: Metadata)
    requires SameKeys(m, n)
    ensures SameKeys(n, m)
  {
    assert forall i, j :: 0 <= i < j < |n| ==> n[i].0 == m[i].0 && n[j].0 == m[j].0;
  }

  lemma {:induction false} SameHeader(m: Metadata, n: Metadata)
    requires |m| == |n| && forall i :: 0 <= i < |m| ==> m[i].0 == n[i].0 && PrintsAs(m[i].1, n[i].1)
    ensures HeaderLines(m) == HeaderLines(n)
  {
    hide Strip;
    if m != [] {
      assert forall i :: 0 <= i < |m[1..]| ==> m[1..][i] == m[i + 1] && n[1..][i] == n[i + 1];
      SameHeader(m[1..], n[1..]);
    }
  }

  lemma PairsHaveSameKeys(a: Incident, b: Incident)
    ensures SameKeys(a.Pairs(), b.Pairs())
  {
    KeysDiffer(a);
    KeysAreGood(a);
  }

  /** Two incidents print the same exactly when each field prints the same. */
  lemma PrintsTheSame(a: Incident, b: Incident, body: string)
    requires Plain(a) && Plain(b)
    ensures Serialize(a.Pairs(), body) == Serialize(b.Pairs(), body) <==>
      forall i :: 0 <= i < 7 ==> PrintsAs(a.Pairs()[i].1, b.Pairs()[i].1)
  {
    hide Serialize, HeaderLines, Plain, PrintsAs, Strip, SameKeys;
    PairsHaveSameKeys(a, b);
    PlainIsPrintable(a);
    PlainIsPrintable(b);
    if Serialize(a.Pairs(), body) == Serialize(b.Pairs(), body) {
      HeaderIsPrinted(a.Pairs(), b.Pairs(), body);
      SomeHeader(a);
      SomeHeader(b);
      forall i | 0 <= i < 7 ensures PrintsAs(a.Pairs()[i].1, b.Pairs()[i].1) {
        HeaderTells(a.Pairs(), b.Pairs(), i);
      }
    }
    if forall i :: 0 <= i < 7 ==> PrintsAs(a.Pairs()[i].1, b.Pairs()[i].1) {
      SameHeader(a.Pairs(), b.Pairs());
      SerializeOfHeader(a.Pairs(), b.Pairs(), body);
    }
  }

  lemma SerializeOfHeader(m: Metadata, n: Metadata, body: string)
    requires HeaderLines(m) == HeaderLines(n)
    ensures Serialize(m, body) == Serialize(n, body)
  {
  }

  lemma {:induction false} SomeLine(m: Metadata, i: nat)
    requires i < |m| && Strip(m[i].1) != ""
    ensures HeaderLines(m) != []
  {
    hide Strip;
    if i > 0 {
      SomeLine(m[1..], i - 1);
    }
  }

  lemma SomeHeader(inc: Incident)
    requires Plain(inc)
    ensures HeaderLines(inc.Pairs()) != []
  {
    hide Strip, HeaderLines;
    SolidIsKept(inc.service);
    SomeLine(inc.Pairs(), 2);
  }

  /** Blank, or nothing to strip. */
  predicate Neat(s: string) {
    Strip(s) == "" || Strip(s) == s
  }

  /** Nothing to strip, a source system, and a source reference unless there is no identifier
      to take its place. */
  predicate Complete(inc: Incident) {
    && Neat(inc.alertId) && Neat(inc.alertName)
    && inc.sourceSystem != "" && Strip(inc.sourceSystem) == inc.sourceSystem
    && Neat(inc.sourceRef) && (Strip(inc.sourceRef) != "" || Strip(inc.alertId) == "")
  }

  lemma CompleteIsSettled(inc: Incident)
    requires Plain(inc)
    ensures Complete(inc) <==> forall i :: 0 <= i < 7 ==> PrintsAs(Settled(inc).Pairs()[i].1, inc.Pairs()[i].1)
  {
    hide Strip, Solid, NoBreak;
    var a, b := Settled(inc).Pairs(), inc.Pairs();
    StripTwice(inc.alertId);
    StripTwice(inc.alertName);
    StripTwice(inc.sourceSystem);
    StripTwice(inc.sourceRef);
    InternalIsPlain();
    assert PrintsAs(a[0].1, b[0].1) <==> Neat(inc.alertId);
    assert PrintsAs(a[1].1, b[1].1) <==> Neat(inc.alertName);
    assert a[2] == b[2] && a[3] == b[3] && a[4] == b[4];
    assert PrintsAs(a[5].1, b[5].1) <==> inc.sourceSystem != "" && Strip(inc.sourceSystem) == inc.sourceSystem by {
      StripOfNothing();
    }
    assert PrintsAs(a[6].1, b[6].1) <==> Neat(inc.sourceRef) && (Strip(inc.sourceRef) != "" || Strip(inc.alertId) == "") by {
      StripOfNothing();
    }
  }

  /** One pass is enough exactly when what it reads is complete already. */
  lemma OnePassSuffices(stem: string, text: string)
    requires StemIsPlain(stem, Parse(text))
    ensures Normalize(stem, Normalize(stem, text)) == Normalize(stem, text) <==> Complete(Read(stem, Parse(text)))
  {
    hide Normalize, Read, Serialize, Settled, Parse, Complete, Plain, FromName, PrintsAs, Strip, Newlines, Clean, StemIsPlain;
    var d := Parse(text);
    var inc := Read(stem, d);
    TwoPasses(stem, text);
    SettledIsPlain(inc);
    PrintsTheSame(Settled(inc), inc, d.body);
    CompleteIsSettled(inc);
  }
}
