/** The text format of the knowledge corpus: "key: value" lines, a blank line, a body.
    One script prints and parses it, another parses it with a loop of its own. */
module RagHeader {
  import opened Wrappers
  import opened Text

  /** A dictionary in insertion order. */
  type Metadata = seq<(string, string)>

  function Get(m: Metadata, key: string): Option<string> {
    if m == [] then None else if m[0].0 == key then Some(m[0].1) else Get(m[1..], key)
  }

  function Put(m: Metadata, key: string, value: string): Metadata {
    if m == [] then [(key, value)]
    else if m[0].0 == key then [(key, value)] + m[1..]
    else [m[0]] + Put(m[1..], key, value)
  }

  // ---------- lines ----------

  /** `str.splitlines` */
  function SplitLines(s: string): seq<string> {
    if s == "" then []
    else if IsBreak(s[0]) then [""] + SplitLines(s[1..])
    else
      var rest := SplitLines(s[1..]);
      if rest == [] then [[s[0]]] else [[s[0]] + rest[0]] + rest[1..]
  }

  /** `"\n".join` */
  function Join(lines: seq<string>): string {
    if lines == [] then "" else if |lines| == 1 then lines[0] else lines[0] + "\n" + Join(lines[1..])
  }

  predicate NoBreak(s: string) {
    forall i :: 0 <= i < |s| ==> !IsBreak(s[i])
  }

  /** Every line break written as a newline. */
  function Newlines(s: string): string {
    if s == "" then "" else [if IsBreak(s[0]) then '\n' else s[0]] + Newlines(s[1..])
  }

  function LStripNewlines(s: string): string {
    if s != "" && s[0] == '\n' then LStripNewlines(s[1..]) else s
  }

  lemma {:induction false} SplitFirstLine(line: string, rest: string)
    requires NoBreak(line)
    ensures SplitLines(line + "\n" + rest) == [line] + SplitLines(rest)
  {
    var s := line + "\n" + rest;
    if line == "" {
      assert s[1..] == rest;
    } else {
      SplitFirstLine(line[1..], rest);
      assert s[1..] == line[1..] + "\n" + rest;
      assert [s[0]] + line[1..] == line;
    }
  }

  lemma {:induction false} JoinOfSplit(s: string)
    ensures SplitLines(s + "\n") != []
    ensures Join(SplitLines(s + "\n")) == Newlines(s)
  {
    if s == "" {
      assert SplitLines("\n") == [""] + SplitLines("\n"[1..]);
    } else {
      JoinOfSplit(s[1..]);
      assert (s + "\n")[1..] == s[1..] + "\n";
      var rest := SplitLines(s[1..] + "\n");
      if IsBreak(s[0]) {
        assert ([""] + rest)[1..] == rest;
      } else {
        assert ([[s[0]] + rest[0]] + rest[1..])[1..] == rest[1..];
      }
    }
  }

  /** Nothing is lost without a break at the end either. */
  lemma {:induction false} JoinOfUnended(s: string)
    requires s != "" && !IsBreak(s[|s| - 1])
    ensures SplitLines(s) != [] && Join(SplitLines(s)) == Newlines(s)
  {
    if |s| == 1 {
      assert SplitLines(s[1..]) == [] && s[1..] == "";
      assert Newlines(s) == [s[0]] + Newlines(s[1..]);
    } else {
      var rest := SplitLines(s[1..]);
      JoinOfUnended(s[1..]);
      if IsBreak(s[0]) {
        assert ([""] + rest)[1..] == rest;
      } else {
        assert ([[s[0]] + rest[0]] + rest[1..])[1..] == rest[1..];
      }
    }
  }

  lemma {:induction false} LinesHaveNoBreak(s: string)
    ensures forall line :: line in SplitLines(s) ==> NoBreak(line)
  {
    if s != "" {
      LinesHaveNoBreak(s[1..]);
      var rest := SplitLines(s[1..]);
      if !IsBreak(s[0]) && rest != [] {
        assert rest[0] in rest;
      }
    }
  }

  // ---------- stripping ----------

  predicate AllSpace(s: string) {
    forall i :: 0 <= i < |s| ==> IsSpace(s[i])
  }

  lemma {:induction false} LStripParts(s: string) returns (a: string)
    ensures s == a + LStrip(s) && AllSpace(a)
  {
    if s != "" && IsSpace(s[0]) {
      a := LStripParts(s[1..]);
      a := [s[0]] + a;
    } else {
      a := "";
    }
  }

  lemma {:induction false} RStripParts(s: string) returns (b: string)
    ensures s == RStrip(s) + b && AllSpace(b)
  {
    if s != "" && IsSpace(s[|s| - 1]) {
      b := RStripParts(s[..|s| - 1]);
      b := b + [s[|s| - 1]];
    } else {
      b := "";
    }
  }

  lemma StripParts(s: string) returns (a: string, b: string)
    ensures s == a + Strip(s) + b && AllSpace(a) && AllSpace(b)
  {
    a := LStripParts(s);
    b := RStripParts(LStrip(s));
  }

  lemma {:induction false} LStripSpaces(a: string, t: string)
    requires AllSpace(a) && (t != "" ==> !IsSpace(t[0]))
    ensures LStrip(a + t) == t
  {
    if a == "" {
      assert a + t == t;
    } else {
      LStripSpaces(a[1..], t);
      assert (a + t)[1..] == a[1..] + t;
    }
  }

  lemma {:induction false} RStripSpaces(t: string, b: string)
    requires AllSpace(b) && (t != "" ==> !IsSpace(t[|t| - 1]))
    ensures RStrip(t + b) == t
  {
    if b == "" {
      assert t + b == t;
    } else {
      RStripSpaces(t, b[..|b| - 1]);
      assert (t + b)[..|t + b| - 1] == t + b[..|b| - 1];
    }
  }

  /** White space around a trimmed text is exactly what stripping removes. */
  lemma StripSpaces(a: string, t: string, b: string)
    requires AllSpace(a) && AllSpace(b) && Trimmed(t)
    ensures Strip(a + t + b) == t
  {
    if t == "" {
      assert a + t + b == (a + b) + "";
      LStripSpaces(a + b, "");
    } else {
      assert a + t + b == a + (t + b);
      LStripSpaces(a, t + b);
      RStripSpaces(t, b);
    }
  }

  // ---------- parsing ----------

  /** Position of the first colon; the length when there is none. */
  function ColonAt(s: string): (i: nat)
    ensures i <= |s|
  {
    if s == "" || s[0] == ':' then 0 else 1 + ColonAt(s[1..])
  }

  /** `key, value = raw.split(":", 1)`, both stripped. */
  function KeyOf(raw: string): string {
    Strip(raw[..ColonAt(raw)])
  }

  function ValueOf(raw: string): string
    requires ColonAt(raw) < |raw|
  {
    Strip(raw[ColonAt(raw) + 1..])
  }

  predicate IsPair(line: string) {
    ColonAt(Strip(line)) < |Strip(line)|
  }

  /** Metadata read from the top of the lines on top of `m`, and the lines of the body. */
  function ParseLines(lines: seq<string>, m: Metadata): (Metadata, seq<string>) {
    if lines == [] then (m, [])
    else
      var raw := Strip(lines[0]);
      if raw == "" then (m, lines[1..])
      else if ColonAt(raw) == |raw| then (m, lines)
      else ParseLines(lines[1..], Put(m, KeyOf(raw), ValueOf(raw)))
  }

  datatype Document = Document(metadata: Metadata, body: string)

  function Parse(text: string): Document {
    var (m, lines) := ParseLines(SplitLines(text), []);
    Document(m, LStripNewlines(Join(lines)))
  }

  // ---------- what is parsed ----------

  /** The line, stripped, is the key, a colon and the value, both stripped in turn; the first
      colon counts. */
  ghost predicate SaysPair(line: string, key: string, value: string) {
    exists k: string, v: string :: Strip(line) == k + ":" + v && ':' !in k && key == Strip(k) && value == Strip(v)
  }

  lemma {:induction false} ColonExactly(s: string)
    ensures ':' !in s[..ColonAt(s)] && (ColonAt(s) < |s| ==> s[ColonAt(s)] == ':')
    ensures ColonAt(s) == |s| <==> ':' !in s
  {
    if s != "" && s[0] != ':' {
      ColonExactly(s[1..]);
      assert s[..ColonAt(s)] == [s[0]] + s[1..][..ColonAt(s[1..])];
    }
  }

  lemma {:induction false} ColonOf(k: string, v: string)
    requires ':' !in k
    ensures ColonAt(k + ":" + v) == |k|
  {
    if k != "" {
      ColonOf(k[1..], v);
      assert (k + ":" + v)[1..] == k[1..] + ":" + v;
    }
  }

  lemma PartsOf(k: string, v: string)
    ensures (k + ":" + v)[..|k|] == k && (k + ":" + v)[|k| + 1..] == v
  {
    assert k + ":" + v == k + (":" + v);
    assert |k + ":"| == |k| + 1;
  }

  lemma PairExactly(line: string, key: string, value: string)
    ensures SaysPair(line, key, value) <==> IsPair(line) && key == KeyOf(Strip(line)) && value == ValueOf(Strip(line))
  {
    hide Strip;
    var raw := Strip(line);
    ColonExactly(raw);
    if SaysPair(line, key, value) {
      var k: string, v: string :| raw == k + ":" + v && ':' !in k && key == Strip(k) && value == Strip(v);
      ColonOf(k, v);
      PartsOf(k, v);
    }
    if IsPair(line) {
      var c := ColonAt(raw);
      assert [raw[c]] == ":";
      assert raw == raw[..c] + [raw[c]] + raw[c + 1..];
    }
  }

  /** The header ends before the first line without a colon. */
  ghost predicate HeaderEnds(lines: seq<string>, n: nat) {
    && n <= |lines| && (forall i :: 0 <= i < n ==> ':' in Strip(lines[i]))
    && (n < |lines| ==> ':' !in Strip(lines[n]))
  }

  ghost predicate Names(line: string, key: string) {
    exists value :: SaysPair(line, key, value)
  }

  /** The last line of the header with the key gives it this value. */
  ghost predicate LastSays(lines: seq<string>, n: nat, key: string, i: nat, value: string) {
    i < n <= |lines| && SaysPair(lines[i], key, value) && forall j :: i < j < n ==> !Names(lines[j], key)
  }

  ghost predicate NoneSays(lines: seq<string>, n: nat, key: string)
    requires n <= |lines|
  {
    forall j :: 0 <= j < n ==> !Names(lines[j], key)
  }

  lemma {:induction false} GetPut(m: Metadata, key: string, value: string, other: string)
    ensures Get(Put(m, key, value), other) == if other == key then Some(value) else Get(m, other)
  {
    if m != [] && m[0].0 != key {
      GetPut(m[1..], key, value, other);
    }
  }

  /** A key has the value that the last line of the header with this key gives it, and the
      body starts after the header, past one blank line. */
  lemma {:induction false} HeaderIsRead(lines: seq<string>, m: Metadata, n: nat, key: string)
    requires HeaderEnds(lines, n)
    ensures forall i: nat, value :: LastSays(lines, n, key, i, value) ==> Get(ParseLines(lines, m).0, key) == Some(value)
    ensures NoneSays(lines, n, key) ==> Get(ParseLines(lines, m).0, key) == Get(m, key)
    ensures ParseLines(lines, m).1 == if n < |lines| && Strip(lines[n]) == "" then lines[n + 1..] else lines[n..]
  {
    hide Strip, SaysPair, Names, KeyOf, ValueOf, Put, Get, ColonAt;
    if lines != [] {
      ColonExactly(Strip(lines[0]));
    }
    if n > 0 {
      var raw, rest := Strip(lines[0]), lines[1..];
      var m' := Put(m, KeyOf(raw), ValueOf(raw));
      assert forall i :: 0 <= i < |rest| ==> rest[i] == lines[i + 1];
      HeaderIsRead(rest, m', n - 1, key);
      GetPut(m, KeyOf(raw), ValueOf(raw), key);
      FirstNames(lines[0], key);
      forall i: nat, value | LastSays(lines, n, key, i, value) ensures Get(ParseLines(lines, m).0, key) == Some(value) {
        if i > 0 {
          assert LastSays(rest, n - 1, key, i - 1, value);
        } else {
          assert NoneSays(rest, n - 1, key);
          PairExactly(lines[0], key, value);
        }
      }
    }
  }

  lemma FirstNames(line: string, key: string)
    requires IsPair(line)
    ensures Names(line, key) <==> key == KeyOf(Strip(line))
  {
    hide SaysPair, Strip;
    forall value ensures SaysPair(line, key, value) <==> key == KeyOf(Strip(line)) && value == ValueOf(Strip(line)) {
      PairExactly(line, key, value);
    }
    assert key == KeyOf(Strip(line)) ==> SaysPair(line, key, ValueOf(Strip(line)));
  }

  /** So it is for whole texts, as both scripts read them. */
  lemma ParsedExactly(text: string, n: nat, key: string)
    requires HeaderEnds(SplitLines(text), n)
    ensures var lines, d := SplitLines(text), Parse(text);
      && (forall i: nat, value :: LastSays(lines, n, key, i, value) ==> Get(d.metadata, key) == Some(value))
      && (NoneSays(lines, n, key) ==> Get(d.metadata, key) == None)
      && d.body == LStripNewlines(Join(if n < |lines| && Strip(lines[n]) == "" then lines[n + 1..] else lines[n..]))
  {
    hide SplitLines, ParseLines, Strip, Join, LStripNewlines, LastSays, NoneSays, HeaderEnds;
    HeaderIsRead(SplitLines(text), [], n, key);
  }

  // ---------- printing ----------

  function HeaderLines(m: Metadata): seq<string> {
    if m == [] then []
    else (if Strip(m[0].1) != "" then [m[0].0 + ": " + m[0].1] else []) + HeaderLines(m[1..])
  }

  function Serialize(m: Metadata, body: string): string {
    Join(HeaderLines(m)) + "\n\n" + Strip(body) + "\n"
  }

  // ---------- the round trip ----------

  /** What survives printing and parsing: pairs with a non-blank value, values stripped. */
  function Clean(m: Metadata): Metadata {
    if m == [] then []
    else (if Strip(m[0].1) != "" then [(m[0].0, Strip(m[0].1))] else []) + Clean(m[1..])
  }

  predicate GoodKey(key: string) {
    Trimmed(key) && NoBreak(key) && forall i :: 0 <= i < |key| ==> key[i] != ':'
  }

  /** Distinct keys that are trimmed and hold no colon or break, and values on one line. */
  ghost predicate Printable(m: Metadata) {
    m == [] || (
      && GoodKey(m[0].0) && NoBreak(m[0].1)
      && Get(m[1..], m[0].0).None?
      && Printable(m[1..]))
  }

  lemma {:induction false} ColonAfterKey(key: string, rest: string)
    requires forall i :: 0 <= i < |key| ==> key[i] != ':'
    ensures ColonAt(key + ":" + rest) == |key|
  {
    var s := key + ":" + rest;
    if key != "" {
      ColonAfterKey(key[1..], rest);
      assert s[1..] == key[1..] + ":" + rest;
    }
  }

  /** A printed line loses only what follows its value. */
  lemma LineStrips(key: string, a: string, v: string, b: string)
    requires GoodKey(key) && AllSpace(a) && AllSpace(b) && Trimmed(v) && v != ""
    ensures Strip(key + ": " + (a + v + b)) == key + ":" + (" " + a + v)
  {
    hide Strip, ColonAt;
    var core := key + ":" + (" " + a + v);
    assert core[0] == if key == "" then ':' else key[0];
    assert core[|core| - 1] == v[|v| - 1];
    StripSpaces("", core, b);
    assert key + ": " + (a + v + b) == "" + core + b;
  }

  lemma CoreParses(key: string, a: string, v: string)
    requires GoodKey(key) && AllSpace(a) && Trimmed(v)
    ensures var core := key + ":" + (" " + a + v);
      ColonAt(core) == |key| < |core| && KeyOf(core) == key && ValueOf(core) == v
  {
    var tail := " " + a + v;
    var core := key + ":" + tail;
    ColonAfterKey(key, tail);
    assert core[..|key|] == key && core[|key| + 1..] == tail;
    StripOfTrimmed(key);
    StripSpaces(" " + a, v, "");
    assert tail == (" " + a) + v + "";
  }

  /** A printed line parses to its pair. */
  lemma LineParses(key: string, value: string)
    requires GoodKey(key) && Strip(value) != ""
    ensures var raw := Strip(key + ": " + value);
      raw != "" && ColonAt(raw) < |raw| && KeyOf(raw) == key && ValueOf(raw) == Strip(value)
  {
    var a, b := StripParts(value);
    StripIsTrimmed(value);
    LineStrips(key, a, Strip(value), b);
    CoreParses(key, a, Strip(value));
  }

  lemma {:induction false} PutAtEnd(m: Metadata, key: string, value: string)
    requires Get(m, key).None?
    ensures Put(m, key, value) == m + [(key, value)]
    ensures forall k :: k != key ==> Get(m + [(key, value)], k) == Get(m, k)
  {
    if m != [] {
      PutAtEnd(m[1..], key, value);
      assert (m + [(key, value)])[1..] == m[1..] + [(key, value)];
    }
  }

  lemma PairParses(key: string, value: string, lines: seq<string>, acc: Metadata, more: Metadata, rest: seq<string>)
    requires GoodKey(key) && Strip(value) != "" && Get(acc, key).None?
    requires ParseLines(lines, acc + [(key, Strip(value))]) == (acc + [(key, Strip(value))] + more, rest)
    ensures ParseLines([key + ": " + value] + lines, acc) == (acc + ([(key, Strip(value))] + more), rest)
  {
    hide Strip, ColonAt, KeyOf, ValueOf, Put, Get, GoodKey;
    LineParses(key, value);
    PutAtEnd(acc, key, Strip(value));
    assert ([key + ": " + value] + lines)[1..] == lines;
    assert acc + [(key, Strip(value))] + more == acc + ([(key, Strip(value))] + more);
  }

  /** None of the keys is in the dictionary yet. */
  ghost predicate NewKeys(m: Metadata, acc: Metadata) {
    forall i :: 0 <= i < |m| ==> Get(acc, m[i].0).None?
  }

  lemma NewKeysRest(m: Metadata, acc: Metadata, value: string)
    requires m != [] && Printable(m) && NewKeys(m, acc)
    ensures Get(acc, m[0].0).None? && NewKeys(m[1..], acc) && NewKeys(m[1..], acc + [(m[0].0, value)])
  {
    assert forall i :: 0 <= i < |m[1..]| ==> m[1..][i] == m[i + 1];
    KeysDiffer(m);
    PutAtEnd(acc, m[0].0, value);
  }

  lemma BlankLineEnds(acc: Metadata, rest: seq<string>)
    ensures ParseLines([""] + rest, acc) == (acc, rest)
  {
    assert ([""] + rest)[1..] == rest;
  }

  /** Header lines and clean pairs, first pair first. */
  lemma HeaderUnfolds(m: Metadata, tail: seq<string>)
    requires m != []
    ensures Strip(m[0].1) == "" ==> HeaderLines(m) == HeaderLines(m[1..]) && Clean(m) == Clean(m[1..])
    ensures Strip(m[0].1) != "" ==>
      && HeaderLines(m) + tail == [m[0].0 + ": " + m[0].1] + (HeaderLines(m[1..]) + tail)
      && Clean(m) == [(m[0].0, Strip(m[0].1))] + Clean(m[1..])
  {
    hide Strip;
    if Strip(m[0].1) == "" {
      assert [] + HeaderLines(m[1..]) == HeaderLines(m[1..]) && [] + Clean(m[1..]) == Clean(m[1..]);
    } else {
      var line := m[0].0 + ": " + m[0].1;
      assert ([line] + HeaderLines(m[1..])) + tail == [line] + (HeaderLines(m[1..]) + tail);
    }
  }

  /** Parsing header lines appends their clean pairs, then stops at the blank line. */
  lemma {:induction false} HeaderParses(m: Metadata, acc: Metadata, rest: seq<string>)
    requires Printable(m) && NewKeys(m, acc)
    ensures ParseLines(HeaderLines(m) + ([""] + rest), acc) == (acc + Clean(m), rest)
  {
    var tail := [""] + rest;
    if m == [] {
      BlankLineEnds(acc, rest);
      assert HeaderLines(m) + tail == tail && acc + Clean(m) == acc;
    } else {
      HeaderUnfolds(m, tail);
      NewKeysRest(m, acc, Strip(m[0].1));
      if Strip(m[0].1) == "" {
        HeaderParses(m[1..], acc, rest);
      } else {
        HeaderParses(m[1..], acc + [(m[0].0, Strip(m[0].1))], rest);
        PairParses(m[0].0, m[0].1, HeaderLines(m[1..]) + tail, acc, Clean(m[1..]), rest);
      }
    }
  }

  lemma KeysDiffer(m: Metadata)
    requires m != [] && Printable(m)
    ensures forall i :: 1 <= i < |m| ==> m[i].0 != m[0].0
  {
    NotAmong(m[1..], m[0].0);
    assert forall i :: 1 <= i < |m| ==> m[i] == m[1..][i - 1];
  }

  lemma {:induction false} NotAmong(m: Metadata, key: string)
    requires Get(m, key).None?
    ensures forall i :: 0 <= i < |m| ==> m[i].0 != key
  {
    if m != [] {
      NotAmong(m[1..], key);
      assert forall i :: 1 <= i < |m| ==> m[i] == m[1..][i - 1];
    }
  }

  /** Printing joins the header lines; splitting the text takes them apart again. */
  lemma {:induction false} SplitPrinted(m: Metadata, tail: string)
    requires Printable(m)
    ensures var header := HeaderLines(m);
      SplitLines(Join(header) + "\n" + tail) == (if header == [] then [""] else header) + SplitLines(tail)
  {
    var header := HeaderLines(m);
    HeaderHasNoBreak(m);
    SplitJoined(header, tail);
  }

  lemma {:induction false} HeaderHasNoBreak(m: Metadata)
    requires Printable(m)
    ensures forall line :: line in HeaderLines(m) ==> NoBreak(line)
  {
    if m != [] {
      HeaderHasNoBreak(m[1..]);
    }
  }

  lemma NothingHasNoBreak()
    ensures NoBreak("")
  {
  }

  lemma {:induction false} SplitJoined(lines: seq<string>, tail: string)
    requires forall line :: line in lines ==> NoBreak(line)
    ensures SplitLines(Join(lines) + "\n" + tail) == (if lines == [] then [""] else lines) + SplitLines(tail)
  {
    hide SplitLines, NoBreak;
    if |lines| <= 1 {
      assert Join(lines) == "" || Join(lines) in lines;
      NothingHasNoBreak();
      SplitFirstLine(Join(lines), tail);
    } else {
      SplitJoined(lines[1..], tail);
      SplitFirstLine(lines[0], Join(lines[1..]) + "\n" + tail);
      assert Join(lines) + "\n" + tail == lines[0] + "\n" + (Join(lines[1..]) + "\n" + tail);
      assert lines == [lines[0]] + lines[1..];
    }
  }

  lemma NewlinesOfTrimmed(s: string)
    requires Trimmed(s)
    ensures LStripNewlines(Newlines(s)) == Newlines(s)
    ensures LStripNewlines("\n" + Newlines(s)) == Newlines(s)
  {
    assert ("\n" + Newlines(s))[1..] == Newlines(s);
  }

  /** Printing and parsing gives back the non-blank pairs in order, values stripped, and the
      stripped body, its line breaks written as newlines. */
  lemma RoundTrip(m: Metadata, body: string)
    requires Printable(m)
    ensures Parse(Serialize(m, body)) == Document(Clean(m), Newlines(Strip(body)))
  {
    hide HeaderLines, Clean, Strip, Printable, Trimmed, Newlines;
    var header, b := HeaderLines(m), Strip(body);
    var text := Serialize(m, body);
    var bodyLines := SplitLines(b + "\n");
    JoinOfSplit(b);
    StripIsTrimmed(body);
    NewlinesOfTrimmed(b);
    assert text == Join(header) + "\n" + ("\n" + (b + "\n"));
    SplitPrinted(m, "\n" + (b + "\n"));
    SplitFirstLine("", b + "\n");
    assert "" + "\n" + (b + "\n") == "\n" + (b + "\n");
    if header == [] {
      assert SplitLines(text) == [""] + ([""] + bodyLines);
      NoHeaderIsClean(m);
      BlankLineEnds([], [""] + bodyLines);
      assert Join([""] + bodyLines) == "\n" + Join(bodyLines) by {
        assert ([""] + bodyLines)[1..] == bodyLines;
      }
    } else {
      assert SplitLines(text) == header + ([""] + bodyLines);
      HeaderParses(m, [], bodyLines);
      assert [] + Clean(m) == Clean(m);
    }
  }

  lemma NoHeaderIsClean(m: Metadata)
    requires HeaderLines(m) == []
    ensures Clean(m) == []
  {
  }

  /** The special case the format promises: trimmed, non-blank values on one line and a body
      that knows no break but the newline come back unchanged. */
  lemma RoundTripExact(m: Metadata, body: string)
    requires Printable(m) && Clean(m) == m
    requires Strip(body) == body && Newlines(body) == body
    ensures Parse(Serialize(m, body)) == Document(m, body)
  {
    RoundTrip(m, body);
  }

  // ---------- the validator's parser ----------

  function ParseMetadataLines(lines: seq<string>, m: Metadata): Metadata {
    if lines == [] || !IsPair(lines[0]) then m
    else ParseMetadataLines(lines[1..], Put(m, KeyOf(Strip(lines[0])), ValueOf(Strip(lines[0]))))
  }

  /** Both parsers read the same metadata from the same lines. */
  lemma {:induction false} ParsersAgree(lines: seq<string>, m: Metadata)
    ensures ParseMetadataLines(lines, m) == ParseLines(lines, m).0
  {
    if lines != [] && IsPair(lines[0]) {
      ParsersAgree(lines[1..], Put(m, KeyOf(Strip(lines[0])), ValueOf(Strip(lines[0]))));
    }
  }

  // ---------- the two loops ----------

  method ParseMetadataAndBody(text: string) returns (metadata: Metadata, body: string)
    ensures Document(metadata, body) == Parse(text)
  {
    var lines := SplitLines(text);
    metadata := [];
    var bodyStart := |lines|;
    var idx := 0;
    while idx < |lines|
      invariant idx <= |lines| && bodyStart == |lines|
      invariant ParseLines(lines, []) == ParseLines(lines[idx..], metadata)
    {
      var raw := Strip(lines[idx]);
      if raw == "" {
        bodyStart := idx + 1;
        break;
      }
      if ColonAt(raw) == |raw| {
        bodyStart := idx;
        break;
      }
      metadata := Put(metadata, KeyOf(raw), ValueOf(raw));
      idx := idx + 1;
    }
    body := LStripNewlines(Join(lines[bodyStart..]));
  }

  /** On every text, what the validator reads is what the corpus script reads. */
  method ParseMetadata(text: string) returns (metadata: Metadata)
    ensures metadata == Parse(text).metadata
  {
    var lines := SplitLines(text);
    ParsersAgree(lines, []);
    metadata := [];
    for idx := 0 to |lines|
      invariant ParseMetadataLines(lines, []) == ParseMetadataLines(lines[idx..], metadata)
    {
      var raw := Strip(lines[idx]);
      if raw == "" {
        break;
      }
      if ColonAt(raw) == |raw| {
        break;
      }
      metadata := Put(metadata, KeyOf(raw), ValueOf(raw));
    }
  }
}
