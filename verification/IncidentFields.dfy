/** Where each field of a completed incident file comes from, in terms of the file's name and
    of what it says; and the loop that completes the files. */
module IncidentFields {
  import opened Wrappers
  import opened Text
  import opened RagHeader
  import opened IncidentCorpus

  // ---------- the identifier ----------

  /** The name is, but for its case, the prefix, a number, and nothing or a hyphen after it. */
  ghost predicate Numbers(stem: string, prefix: string, digits: string) {
    && digits != "" && (forall i :: 0 <= i < |digits| ==> '0' <= digits[i] <= '9')
    && exists rest: string :: Lower(stem) == prefix + digits + rest && (rest == "" || rest[0] == '-')
  }

  lemma {:induction false} UpToExactly(s: string, c: char) returns (rest: string)
    ensures s == UpTo(s, c) + rest && (rest == "" || rest[0] == c)
    ensures c !in UpTo(s, c)
  {
    if s == "" || s[0] == c {
      rest := s;
    } else {
      rest := UpToExactly(s[1..], c);
    }
  }

  lemma {:induction false} UpToOf(a: string, rest: string, c: char)
    requires c !in a && (rest == "" || rest[0] == c)
    ensures UpTo(a + rest, c) == a
  {
    if a == "" {
      assert a + rest == rest;
    } else {
      assert (a + rest)[1..] == a[1..] + rest;
      UpToOf(a[1..], rest, c);
    }
  }

  lemma NumberedExactly(stem: string, prefix: string, caption: string, digits: string)
    ensures Numbers(stem, prefix, digits) ==> NumberedId(Lower(stem), prefix, caption) == Some(caption + digits)
    ensures NumberedId(Lower(stem), prefix, caption).Some? ==>
      exists d :: Numbers(stem, prefix, d) && NumberedId(Lower(stem), prefix, caption).value == caption + d
  {
    hide Lower;
    var s := Lower(stem);
    if Numbers(stem, prefix, digits) {
      var rest: string :| s == prefix + digits + rest && (rest == "" || rest[0] == '-');
      assert s[|prefix|..] == digits + rest && prefix <= s;
      UpToOf(digits, rest, '-');
    }
    if NumberedId(s, prefix, caption).Some? {
      var d := UpTo(s[|prefix|..], '-');
      var rest := UpToExactly(s[|prefix|..], '-');
      assert s == prefix + d + rest;
      assert Numbers(stem, prefix, d);
    }
  }

  /** In upper case, with a hyphen for every underscore. */
  ghost predicate Capitals(id: string, stem: string) {
    |id| == |stem| && forall i :: 0 <= i < |stem| ==> id[i] == if stem[i] == '_' then '-' else UpperChar(stem[i])
  }

  /** The number after "inc-" or else after "dw-", or else the whole name in capitals. */
  ghost predicate IdFromName(stem: string, id: string) {
    && (forall d :: Numbers(stem, "inc-", d) ==> id == "INC-" + d)
    && ((forall d :: !Numbers(stem, "inc-", d)) ==>
          && (forall d :: Numbers(stem, "dw-", d) ==> id == "DW-" + d)
          && ((forall d :: !Numbers(stem, "dw-", d)) ==> Capitals(id, stem)))
  }

  lemma WholeName(stem: string)
    ensures Capitals(Upper(Replace(Lower(stem), '_', '-')), stem)
  {
  }

  lemma IdFromNameIsRight(stem: string)
    ensures IdFromName(stem, AlertIdFromStem(stem))
  {
    hide Numbers, Lower, Capitals, Upper, Replace, NumberedId;
    forall d ensures Numbers(stem, "inc-", d) ==> NumberedId(Lower(stem), "inc-", "INC-") == Some("INC-" + d) {
      NumberedExactly(stem, "inc-", "INC-", d);
    }
    forall d ensures Numbers(stem, "dw-", d) ==> NumberedId(Lower(stem), "dw-", "DW-") == Some("DW-" + d) {
      NumberedExactly(stem, "dw-", "DW-", d);
    }
    NumberedExactly(stem, "inc-", "INC-", "");
    NumberedExactly(stem, "dw-", "DW-", "");
    WholeName(stem);
  }

  // ---------- the name ----------

  /** A space for every hyphen; a letter after a letter in lower case, everything else in
      upper case. */
  ghost predicate Titled(name: string, stem: string) {
    |name| == |stem| && forall i :: 0 <= i < |stem| ==>
      name[i] == if stem[i] == '-' then ' '
                 else if i > 0 && IsLetter(stem[i - 1]) then LowerChar(stem[i]) else UpperChar(stem[i])
  }

  ghost predicate FirstHeading(lines: seq<string>, i: nat, heading: string) {
    && i < |lines| && "# " <= Strip(lines[i]) && heading == Strip(Strip(lines[i])[2..])
    && forall j :: 0 <= j < i ==> !("# " <= Strip(lines[j]))
  }

  /** The first heading of the body; the file's name where there is none. */
  ghost predicate NameFromBody(stem: string, body: string, name: string) {
    && (forall i: nat, heading :: FirstHeading(SplitLines(body), i, heading) ==> name == heading)
    && ((forall i :: 0 <= i < |SplitLines(body)| ==> !("# " <= Strip(SplitLines(body)[i]))) ==> Titled(name, stem))
  }

  lemma {:induction false} HeadingExactly(lines: seq<string>, fallback: string)
    ensures forall i: nat, heading :: FirstHeading(lines, i, heading) ==> HeadingIn(lines, fallback) == heading
    ensures (forall i :: 0 <= i < |lines| ==> !("# " <= Strip(lines[i]))) ==> HeadingIn(lines, fallback) == fallback
  {
    hide Strip;
    if lines != [] && !IsHeading(lines[0]) {
      var rest := lines[1..];
      assert forall i :: 0 <= i < |rest| ==> rest[i] == lines[i + 1];
      HeadingExactly(rest, fallback);
      forall i: nat, heading | FirstHeading(lines, i, heading) ensures HeadingIn(lines, fallback) == heading {
        assert FirstHeading(rest, i - 1, heading);
      }
    }
  }

  lemma TitleIsTitled(stem: string)
    ensures Titled(Title(Replace(stem, '-', ' ')), stem)
  {
  }

  // ---------- service, severity and type ----------

  /** What stands before the first comma. */
  ghost predicate FirstItem(value: string, item: string) {
    exists a, rest: string :: value == a + rest && ',' !in a && (rest == "" || rest[0] == ',') && item == Strip(a)
  }

  lemma CsvFirstExactly(value: string)
    ensures FirstItem(value, CsvFirst(value))
  {
    hide Strip;
    var rest := UpToExactly(value, ',');
    assert value == UpTo(value, ',') + rest;
  }

  ghost predicate Holds(s: string, part: string) {
    exists a: string, b: string :: s == a + part + b
  }

  lemma ContainsExactly(s: string, part: string)
    ensures Contains(s, part) <==> Holds(s, part)
  {
    if i :| 0 <= i <= |s| && part <= s[i..] {
      assert s == s[..i] + part + s[i + |part|..];
    }
    if a: string, b: string :| s == a + part + b {
      assert part <= s[|a|..];
    }
  }

  /** Four severities stand for themselves, two words for "info", and anything else for "high". */
  ghost predicate SeverityRight(raw: string, severity: string) {
    var word := Lower(Strip(raw));
    && (word in {"critical", "warning"} ==> severity == word)
    && (word in {"info", "informational", "information"} ==> severity == "info")
    && (word !in {"critical", "warning", "info", "informational", "information"} ==> severity == "high")
  }

  lemma NormalizedSeverity(raw: string)
    ensures SeverityRight(raw, NormalizeSeverity(raw))
  {
    hide Strip, Lower;
    assert "medium"[0] == 'm' && "moderate"[0] == 'm' && "critical"[0] == 'c' && "warning"[0] == 'w';
    assert "info"[0] == 'i' && "informational"[0] == 'i' && "information"[0] == 'i' && "high"[0] == 'h';
    assert |"info"| == 4 && |"informational"| == 13 && |"information"| == 11;
  }

  /** Latency before lag, whatever the case. */
  ghost predicate TypeRight(name: string, alertType: string) {
    && (Holds(Lower(name), "latency") ==> alertType == "latency")
    && (!Holds(Lower(name), "latency") && Holds(Lower(name), "lag") ==> alertType == "replication")
    && (!Holds(Lower(name), "latency") && !Holds(Lower(name), "lag") ==> alertType == "incident")
  }

  lemma TypeIsRight(name: string)
    ensures TypeRight(name, TypeFromName(name))
  {
    hide Lower, Contains, Holds;
    ContainsExactly(Lower(name), "latency");
    ContainsExactly(Lower(name), "lag");
  }

  // ---------- all seven ----------

  /** What the file says under a key, stripped. */
  ghost function Said(m: Metadata, key: string): string {
    Strip(Get(m, key).GetOr(""))
  }

  /** Each field is what the file says of it, if it says anything, and otherwise what its own
      rule makes of the rest of the file or of its name. */
  ghost predicate ReadRight(stem: string, d: Document, inc: Incident) {
    var m := d.metadata;
    && (if Said(m, "alert_id") != "" then inc.alertId == Said(m, "alert_id") else IdFromName(stem, inc.alertId))
    && (if Said(m, "alert_name") != "" then inc.alertName == Said(m, "alert_name")
        else if Said(m, "title") != "" then inc.alertName == Said(m, "title")
        else NameFromBody(stem, d.body, inc.alertName))
    && (if Said(m, "service") != "" then inc.service == Said(m, "service")
        else forall item :: FirstItem(Said(m, "services"), item) ==> inc.service == if item != "" then item else "unknown")
    && SeverityRight(Get(m, "severity").GetOr(""), inc.severity)
    && (if Said(m, "alert_type") != "" then inc.alertType == Said(m, "alert_type") else TypeRight(inc.alertName, inc.alertType))
    && (Some(inc.sourceSystem) == Get(m, "source_system") || (Get(m, "source_system").None? && inc.sourceSystem == "internal"))
    && (Some(inc.sourceRef) == Get(m, "source_ref") || (Get(m, "source_ref").None? && inc.sourceRef == inc.alertId))
  }

  lemma OneFirstItem(value: string, item: string)
    requires FirstItem(value, item)
    ensures item == CsvFirst(value)
  {
    hide Strip;
    var a, rest: string :| value == a + rest && ',' !in a && (rest == "" || rest[0] == ',') && item == Strip(a);
    UpToOf(a, rest, ',');
  }

  lemma ReadByField(stem: string, d: Document)
    ensures ReadRight(stem, d, Read(stem, d))
  {
    hide Strip, Lower, Get, AlertIdFromStem, IdFromName, Titled, Title, Replace, HeadingIn, SeverityRight, NormalizeSeverity;
    hide TypeRight, TypeFromName, CsvFirst, FirstItem, FirstHeading, SplitLines;
    var services := Said(d.metadata, "services");
    IdFromNameIsRight(stem);
    HeadingExactly(SplitLines(d.body), Title(Replace(stem, '-', ' ')));
    TitleIsTitled(stem);
    forall item | FirstItem(services, item) ensures item == CsvFirst(services) {
      OneFirstItem(services, item);
    }
    NormalizedSeverity(Get(d.metadata, "severity").GetOr(""));
    TypeIsRight(AlertNameOf(stem, d));
  }

  // ---------- the loop over the files ----------

  method HeadingFromBody(body: string, fallback: string) returns (heading: string)
    ensures heading == HeadingIn(SplitLines(body), fallback)
  {
    var lines := SplitLines(body);
    for k := 0 to |lines|
      invariant HeadingIn(lines, fallback) == HeadingIn(lines[k..], fallback)
    {
      if IsHeading(lines[k]) {
        return Strip(Strip(lines[k])[2..]);
      }
    }
    heading := fallback;
  }

  /** Rewrites every incident file, each from its own name and text alone, and records what
      was read. */
  method EnsureIncidentsComplete(files: map<string, string>)
    returns (written: map<string, string>, records: map<string, Incident>)
    ensures written.Keys == records.Keys == files.Keys
    ensures forall stem :: stem in files ==> written[stem] == Normalize(stem, files[stem])
    ensures forall stem :: stem in files ==> records[stem] == Read(stem, Parse(files[stem]))
    ensures forall stem :: stem in files ==> ReadRight(stem, Parse(files[stem]), records[stem])
  {
    hide Parse, Read, Serialize, ReadRight;
    written, records := files, map[];
    var left := files.Keys;
    while left != {}
      invariant left <= files.Keys && written.Keys == files.Keys && records.Keys == files.Keys - left
      invariant forall stem :: stem in files ==>
        written[stem] == if stem in left then files[stem] else Normalize(stem, files[stem])
      invariant forall stem :: stem in records ==>
        records[stem] == Read(stem, Parse(files[stem])) && ReadRight(stem, Parse(files[stem]), records[stem])
    {
      var stem :| stem in left;
      var metadata, body := ParseMetadataAndBody(files[stem]);
      var incident := Read(stem, Document(metadata, body));
      ReadByField(stem, Document(metadata, body));
      written := written[stem := Serialize(incident.Pairs(), body)];
      records := records[stem := incident];
      left := left - {stem};
    }
  }
}
