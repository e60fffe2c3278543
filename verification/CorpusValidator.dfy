/** The validator of the knowledge corpus, and what it says about the incident files that
    the corpus script has completed. */
module CorpusValidator {
  import opened Wrappers
  import opened Text
  import opened RagHeader
  import opened IncidentCorpus
  import opened IncidentFiles

  // ---------- the rules ----------

  const SECTIONS := ["runbooks", "incidents", "changes", "dependencies", "deployments", "sops", "onboarding"]

  function RequiredKeys(section: string): seq<string> {
    if section == "runbooks" || section == "sops" || section == "onboarding" then
      ["kind", "title", "services", "owner_team", "last_reviewed", "source_system", "source_ref"]
    else if section == "incidents" then ["alert_id", "alert_name", "service", "severity", "alert_type"]
    else if section == "changes" then ["kind", "title", "services", "deployment", "change_id"]
    else if section == "dependencies" then ["kind", "title", "services", "dependencies"]
    else if section == "deployments" then ["kind", "title", "services", "deployment"]
    else []
  }

  function ExpectedKind(section: string): Option<string> {
    if section == "dependencies" then Some("dependency")
    else if section == "changes" then Some("change")
    else if section == "runbooks" then Some("runbook")
    else if section == "deployments" then Some("deployment")
    else if section == "sops" then Some("sop")
    else if section == "onboarding" then Some("onboarding")
    else None
  }

  function Stripped(m: Metadata, key: string): string {
    Strip(GetOr(m, key, ""))
  }

  predicate Missing(section: string, m: Metadata) {
    var keys := RequiredKeys(section);
    exists i :: 0 <= i < |keys| && Stripped(m, keys[i]) == ""
  }

  predicate WrongKind(section: string, m: Metadata) {
    var kind := Lower(Stripped(m, "kind"));
    ExpectedKind(section).Some? && kind != "" && kind != ExpectedKind(section).value
  }

  predicate WrongSeverity(section: string, m: Metadata) {
    var severity := Lower(Stripped(m, "severity"));
    section == "incidents" && severity != "" && !IsSeverity(severity)
  }

  /** `value.split(separator)`; at least one part. */
  function Split(value: string, separator: char): (parts: seq<string>)
    ensures parts != []
  {
    if value == "" then [""]
    else
      var rest := Split(value[1..], separator);
      if value[0] == separator then [""] + rest else [[value[0]] + rest[0]] + rest[1..]
  }

  function NonBlank(items: seq<string>): seq<string> {
    if items == [] then [] else (if Strip(items[0]) != "" then [Strip(items[0])] else []) + NonBlank(items[1..])
  }

  function NormalizeCsv(value: string): seq<string> {
    NonBlank(Split(value, ','))
  }

  lemma {:induction false} NonBlankIsEmpty(items: seq<string>)
    ensures NonBlank(items) == [] <==> forall item :: item in items ==> AllSpace(item)
  {
    hide Strip, AllSpace;
    if items != [] {
      NonBlankIsEmpty(items[1..]);
      StripOfSpaces(items[0]);
      assert forall item :: item in items <==> item == items[0] || item in items[1..];
    }
  }

  /** Nothing but commas and white space. */
  predicate NoItem(value: string) {
    forall i :: 0 <= i < |value| ==> value[i] == ',' || IsSpace(value[i])
  }

  lemma {:induction false} SplitIntoSpaces(value: string)
    ensures (forall part :: part in Split(value, ',') ==> AllSpace(part)) <==> NoItem(value)
  {
    hide IsSpace;
    if value == "" {
      assert AllSpace("");
    } else {
      var tail, parts, rest := value[1..], Split(value, ','), Split(value[1..], ',');
      SplitIntoSpaces(tail);
      assert NoItem(value) <==> (value[0] == ',' || IsSpace(value[0])) && NoItem(tail) by {
        assert forall i :: 0 < i < |value| ==> value[i] == tail[i - 1];
        assert forall i :: 0 <= i < |tail| ==> tail[i] == value[i + 1];
      }
      assert rest == [rest[0]] + rest[1..];
      if value[0] == ',' {
        assert AllSpace("") && forall part :: part in parts <==> part == "" || part in rest;
      } else {
        var first := [value[0]] + rest[0];
        assert AllSpace(first) <==> IsSpace(value[0]) && AllSpace(rest[0]) by {
          assert first[0] == value[0] && forall i :: 0 < i < |first| ==> first[i] == rest[0][i - 1];
          assert forall i :: 0 <= i < |rest[0]| ==> rest[0][i] == first[i + 1];
        }
        assert forall part :: part in parts <==> part == first || part in rest[1..];
        assert forall part :: part in rest <==> part == rest[0] || part in rest[1..];
      }
    }
  }

  /** A list normalises to nothing exactly when it holds only commas and white space. */
  lemma NormalizeCsvIsEmpty(value: string)
    ensures NormalizeCsv(value) == [] <==> NoItem(value)
  {
    hide Split, NonBlank, AllSpace, NoItem;
    NonBlankIsEmpty(Split(value, ','));
    SplitIntoSpaces(value);
  }

  predicate NoService(section: string, m: Metadata) {
    var services := Stripped(m, "services");
    (section == "runbooks" || section == "changes" || section == "dependencies") && services != "" && NormalizeCsv(services) == []
  }

  predicate IsUsual(c: char) {
    IsLetter(c) || '0' <= c <= '9' || c == '.' || c == '_' || c == '-'
  }

  predicate OddAlertId(section: string, m: Metadata) {
    section == "incidents" && exists i :: 0 <= i < |Stripped(m, "alert_id")| && !IsUsual(Stripped(m, "alert_id")[i])
  }

  ghost predicate BreaksNoRule(section: string, m: Metadata) {
    !Missing(section, m) && !WrongKind(section, m) && !WrongSeverity(section, m) && !NoService(section, m)
  }

  // ---------- the rules in so many words ----------

  ghost predicate KindIs(m: Metadata, kind: string) {
    Lower(Strip(GetOr(m, "kind", ""))) == kind
  }

  /** The file says something under each key that its section asks for. */
  ghost predicate SaysEnough(section: string, m: Metadata) {
    && (section in {"runbooks", "sops", "onboarding"} ==>
          && Gives(m, "kind") && Gives(m, "title") && Gives(m, "services") && Gives(m, "owner_team")
          && Gives(m, "last_reviewed") && Gives(m, "source_system") && Gives(m, "source_ref"))
    && (section == "incidents" ==>
          && Gives(m, "alert_id") && Gives(m, "alert_name") && Gives(m, "service") && Gives(m, "severity") && Gives(m, "alert_type"))
    && (section == "changes" ==>
          && Gives(m, "kind") && Gives(m, "title") && Gives(m, "services") && Gives(m, "deployment") && Gives(m, "change_id"))
    && (section == "dependencies" ==>
          && Gives(m, "kind") && Gives(m, "title") && Gives(m, "services") && Gives(m, "dependencies"))
    && (section == "deployments" ==>
          && Gives(m, "kind") && Gives(m, "title") && Gives(m, "services") && Gives(m, "deployment"))
  }

  /** The kind, where there is one, is the one that belongs to the section. */
  ghost predicate KindFits(section: string, m: Metadata) {
    Gives(m, "kind") ==>
      && (section == "dependencies" ==> KindIs(m, "dependency"))
      && (section == "changes" ==> KindIs(m, "change"))
      && (section == "runbooks" ==> KindIs(m, "runbook"))
      && (section == "deployments" ==> KindIs(m, "deployment"))
      && (section == "sops" ==> KindIs(m, "sop"))
      && (section == "onboarding" ==> KindIs(m, "onboarding"))
  }

  /** A file breaks no rule when it says enough, its kind fits, an incident has one of four
      severities, and runbooks, changes and dependencies name a service: something other than
      commas and white space. */
  ghost predicate Lawful(section: string, m: Metadata) {
    && SaysEnough(section, m) && KindFits(section, m)
    && (section == "incidents" ==> Lower(Strip(GetOr(m, "severity", ""))) in {"critical", "high", "warning", "info"})
    && (section in {"runbooks", "changes", "dependencies"} ==> HasItem(Strip(GetOr(m, "services", ""))))
  }

  ghost predicate HasItem(services: string) {
    exists i :: 0 <= i < |services| && services[i] != ',' && !IsSpace(services[i])
  }

  /** No two sections have the same name. */
  lemma SectionsDiffer(section: string)
    ensures section == "dependencies" ==> section != "deployments"
    ensures section in {"dependencies", "deployments"} ==> section !in {"runbooks", "sops", "onboarding", "incidents", "changes"}
    ensures section in {"runbooks", "sops", "onboarding"} ==> section !in {"incidents", "changes"}
    ensures section == "incidents" ==> section != "changes"
    ensures section == "runbooks" ==> section !in {"sops", "onboarding"}
    ensures section == "sops" ==> section != "onboarding"
  {
    assert "runbooks"[0] == 'r' && "sops"[0] == 's' && "onboarding"[0] == 'o' && "incidents"[0] == 'i';
    assert "changes"[0] == 'c' && "dependencies"[0] == 'd' && "deployments"[0] == 'd';
    assert |"dependencies"| != |"deployments"|;
  }

  lemma MissingSome(keys: seq<string>, m: Metadata)
    ensures (exists i :: 0 <= i < |keys| && Stripped(m, keys[i]) == "") <==> exists k :: k in keys && !Gives(m, k)
  {
    hide Strip;
    if i :| 0 <= i < |keys| && Stripped(m, keys[i]) == "" {
      assert keys[i] in keys && !Gives(m, keys[i]);
    }
    if k :| k in keys && !Gives(m, k) {
      var i :| 0 <= i < |keys| && keys[i] == k;
      assert Stripped(m, keys[i]) == "";
    }
  }

  lemma MissingExactly(section: string, m: Metadata)
    ensures Missing(section, m) <==> !SaysEnough(section, m)
  {
    hide Gives, Stripped;
    SectionsDiffer(section);
    MissingSome(RequiredKeys(section), m);
  }

  lemma WrongKindExactly(section: string, m: Metadata)
    ensures WrongKind(section, m) <==> !KindFits(section, m)
  {
    hide Strip;
    SectionsDiffer(section);
    assert |Lower(Stripped(m, "kind"))| == |Stripped(m, "kind")|;
  }

  lemma NoServiceExactly(section: string, m: Metadata)
    requires SaysEnough(section, m)
    ensures NoService(section, m) <==>
      section in {"runbooks", "changes", "dependencies"} && !HasItem(Strip(GetOr(m, "services", "")))
  {
    hide Strip, NormalizeCsv, IsSpace;
    NormalizeCsvIsEmpty(Stripped(m, "services"));
  }

  lemma WrongSeverityExactly(section: string, m: Metadata)
    requires SaysEnough(section, m)
    ensures WrongSeverity(section, m) <==>
      section == "incidents" && Lower(Strip(GetOr(m, "severity", ""))) !in {"critical", "high", "warning", "info"}
  {
    hide Strip;
    assert |Lower(Stripped(m, "severity"))| == |Stripped(m, "severity")|;
  }

  lemma LawfulExactly(section: string, m: Metadata)
    ensures BreaksNoRule(section, m) <==> Lawful(section, m)
  {
    hide Missing, WrongKind, WrongSeverity, NoService, SaysEnough, KindFits, HasItem, Strip, Lower;
    MissingExactly(section, m);
    WrongKindExactly(section, m);
    if SaysEnough(section, m) {
      NoServiceExactly(section, m);
      WrongSeverityExactly(section, m);
    }
  }

  // ---------- the findings ----------

  datatype Level = Warn | Error

  datatype Issue =
    | UnknownSection(section: string)
    | MissingKeys(keys: seq<string>)
    | KindMismatch(expected: string, actual: string)
    | BadSeverity
    | UnusualAlertId
    | EmptyServices
  {
    function Level(): Level {
      if UnknownSection? || UnusualAlertId? then Warn else Error
    }
  }

  function MissingFrom(keys: seq<string>, m: Metadata): seq<string> {
    if keys == [] then [] else
      var last := keys[|keys| - 1];
      MissingFrom(keys[..|keys| - 1], m) + if Stripped(m, last) == "" then [last] else []
  }

  lemma {:induction false} MissingFromMeaning(keys: seq<string>, m: Metadata)
    ensures forall k :: k in MissingFrom(keys, m) <==> k in keys && Stripped(m, k) == ""
  {
    hide Stripped;
    if keys != [] {
      MissingFromMeaning(keys[..|keys| - 1], m);
      assert keys == keys[..|keys| - 1] + [keys[|keys| - 1]];
    }
  }

  function When(holds: bool, issue: Issue): seq<Issue> {
    if holds then [issue] else []
  }

  /** Everything there is to report about a file, in order. */
  function Findings(section: string, m: Metadata): seq<Issue> {
    if section !in SECTIONS then [UnknownSection(section)] else
      var missing := MissingFrom(RequiredKeys(section), m);
      When(missing != [], MissingKeys(missing))
      + When(WrongKind(section, m), KindMismatch(ExpectedKind(section).GetOr(""), Lower(Stripped(m, "kind"))))
      + When(WrongSeverity(section, m), BadSeverity)
      + When(OddAlertId(section, m), UnusualAlertId)
      + When(NoService(section, m), EmptyServices)
  }

  ghost predicate HasError(issues: seq<Issue>) {
    exists i :: i in issues && i.Level() == Error
  }

  lemma HasErrorConcat(a: seq<Issue>, b: seq<Issue>)
    ensures HasError(a + b) <==> HasError(a) || HasError(b)
  {
    if i :| i in a && i.Level() == Error { assert i in a + b; }
    if i :| i in b && i.Level() == Error { assert i in a + b; }
  }

  lemma HasErrorWhen(holds: bool, issue: Issue)
    ensures HasError(When(holds, issue)) <==> holds && issue.Level() == Error
  {
    if holds { assert issue in When(holds, issue); }
  }

  /** There is an error among the findings exactly when the section is known and one of its
      four rules is broken. */
  lemma ErrorsExactly(section: string, m: Metadata)
    ensures HasError(Findings(section, m)) <==> section in SECTIONS && !BreaksNoRule(section, m)
    ensures HasError(Findings(section, m)) <==>
      section in {"runbooks", "incidents", "changes", "dependencies", "deployments", "sops", "onboarding"} && !Lawful(section, m)
  {
    ErrorsAreBreaches(section, m);
    LawfulExactly(section, m);
  }

  /** What is only warned about: an unknown section, and an identifier with a character that
      is no ASCII letter or digit, dot, underscore or hyphen. */
  lemma WarningsExactly(section: string, m: Metadata)
    ensures UnknownSection(section) in Findings(section, m) <==>
      section !in {"runbooks", "incidents", "changes", "dependencies", "deployments", "sops", "onboarding"}
    ensures UnusualAlertId in Findings(section, m) <==>
      section == "incidents" && HasOddCharacter(Strip(GetOr(m, "alert_id", "")))
  {
    hide SECTIONS, Strip, OddAlertId, HasOddCharacter, Findings;
    OddAlertIdExactly(section, m);
    SectionsExactly(section);
    if section in SECTIONS {
      WarnedAmongFindings(section, m);
    } else {
      UnknownAmongFindings(section, m);
    }
  }

  lemma SectionsExactly(section: string)
    ensures section in SECTIONS <==>
      section in {"runbooks", "incidents", "changes", "dependencies", "deployments", "sops", "onboarding"}
  {
  }

  lemma InWhen(x: Issue, holds: bool, issue: Issue)
    ensures x in When(holds, issue) <==> holds && x == issue
  {
  }

  lemma UnknownAmongFindings(section: string, m: Metadata)
    requires section !in SECTIONS
    ensures UnknownSection(section) in Findings(section, m) && UnusualAlertId !in Findings(section, m)
  {
    hide SECTIONS;
  }

  lemma WarnedAmongFindings(section: string, m: Metadata)
    requires section in SECTIONS
    ensures UnknownSection(section) !in Findings(section, m)
    ensures UnusualAlertId in Findings(section, m) <==> OddAlertId(section, m)
  {
    hide SECTIONS, When, MissingFrom, RequiredKeys, WrongKind, WrongSeverity, OddAlertId, NoService, ExpectedKind, Stripped, Lower;
    var missing := MissingFrom(RequiredKeys(section), m);
    var kind := KindMismatch(ExpectedKind(section).GetOr(""), Lower(Stripped(m, "kind")));
    forall x: Issue ensures x in Findings(section, m) <==>
      || (missing != [] && x == MissingKeys(missing)) || (WrongKind(section, m) && x == kind)
      || (WrongSeverity(section, m) && x == BadSeverity) || (OddAlertId(section, m) && x == UnusualAlertId)
      || (NoService(section, m) && x == EmptyServices)
    {
      InWhen(x, missing != [], MissingKeys(missing));
      InWhen(x, WrongKind(section, m), kind);
      InWhen(x, WrongSeverity(section, m), BadSeverity);
      InWhen(x, OddAlertId(section, m), UnusualAlertId);
      InWhen(x, NoService(section, m), EmptyServices);
    }
  }

  ghost predicate HasOddCharacter(id: string) {
    exists i :: 0 <= i < |id| && IsOdd(id[i])
  }

  ghost predicate IsOdd(c: char) {
    !('a' <= c <= 'z') && !('A' <= c <= 'Z') && !('0' <= c <= '9') && c !in {'.', '_', '-'}
  }

  lemma OddAlertIdExactly(section: string, m: Metadata)
    ensures OddAlertId(section, m) <==> section == "incidents" && HasOddCharacter(Strip(GetOr(m, "alert_id", "")))
  {
    hide Strip;
    var id := Stripped(m, "alert_id");
    assert forall i :: 0 <= i < |id| ==> IsOdd(id[i]) == !IsUsual(id[i]);
  }

  lemma ErrorsAreBreaches(section: string, m: Metadata)
    ensures HasError(Findings(section, m)) <==> section in SECTIONS && !BreaksNoRule(section, m)
  {
    hide HasError, When, WrongKind, WrongSeverity, OddAlertId, NoService, MissingFrom, RequiredKeys, Stripped, ExpectedKind, SECTIONS;
    if section !in SECTIONS {
      HasErrorWhen(true, UnknownSection(section));
      WhenTrue(UnknownSection(section));
    } else {
      var keys := RequiredKeys(section);
      var missing := MissingFrom(keys, m);
      MissingFromMeaning(keys, m);
      assert missing != [] <==> Missing(section, m) by {
        if missing != [] { assert missing[0] in missing; }
      }
      var a, b := When(missing != [], MissingKeys(missing)),
        When(WrongKind(section, m), KindMismatch(ExpectedKind(section).GetOr(""), Lower(Stripped(m, "kind"))));
      var c, d, e := When(WrongSeverity(section, m), BadSeverity), When(OddAlertId(section, m), UnusualAlertId),
        When(NoService(section, m), EmptyServices);
      HasErrorConcat(a, b);
      HasErrorConcat(a + b, c);
      HasErrorConcat(a + b + c, d);
      HasErrorConcat(a + b + c + d, e);
      HasErrorWhen(missing != [], MissingKeys(missing));
      HasErrorWhen(WrongKind(section, m), KindMismatch(ExpectedKind(section).GetOr(""), Lower(Stripped(m, "kind"))));
      HasErrorWhen(WrongSeverity(section, m), BadSeverity);
      HasErrorWhen(OddAlertId(section, m), UnusualAlertId);
      HasErrorWhen(NoService(section, m), EmptyServices);
    }
  }

  lemma WhenTrue(issue: Issue)
    ensures When(true, issue) == [issue]
  {
  }

  method CollectMissing(keys: seq<string>, m: Metadata) returns (missing: seq<string>)
    ensures missing == MissingFrom(keys, m)
  {
    missing := [];
    for k := 0 to |keys|
      invariant missing == MissingFrom(keys[..k], m)
    {
      assert keys[..k + 1][..k] == keys[..k];
      if Stripped(m, keys[k]) == "" {
        missing := missing + [keys[k]];
      }
    }
    assert keys[..|keys|] == keys;
  }

  method OnlyUsualCharacters(alertId: string) returns (usual: bool)
    ensures usual <==> forall i :: 0 <= i < |alertId| ==> IsUsual(alertId[i])
  {
    for k := 0 to |alertId|
      invariant forall i :: 0 <= i < k ==> IsUsual(alertId[i])
    {
      if !IsUsual(alertId[k]) {
        return false;
      }
    }
    return true;
  }

  method CheckKind(section: string, m: Metadata) returns (issues: seq<Issue>)
    ensures issues ==
      When(WrongKind(section, m), KindMismatch(ExpectedKind(section).GetOr(""), Lower(Stripped(m, "kind"))))
  {
    hide Stripped, Lower, ExpectedKind;
    issues := [];
    var expectedKind := ExpectedKind(section);
    if expectedKind.Some? {
      var actualKind := Lower(Stripped(m, "kind"));
      if actualKind != "" && actualKind != expectedKind.value {
        issues := [KindMismatch(expectedKind.value, actualKind)];
      }
    }
  }

  method CheckSeverity(section: string, m: Metadata) returns (issues: seq<Issue>)
    ensures issues == When(WrongSeverity(section, m), BadSeverity)
  {
    hide Stripped, Lower, IsSeverity;
    issues := [];
    if section == "incidents" {
      var severity := Lower(Stripped(m, "severity"));
      if severity != "" && !IsSeverity(severity) {
        issues := [BadSeverity];
      }
    }
  }

  method CheckAlertId(section: string, m: Metadata) returns (issues: seq<Issue>)
    ensures issues == When(OddAlertId(section, m), UnusualAlertId)
  {
    hide Stripped, IsUsual;
    issues := [];
    if section == "incidents" {
      var alertId := Stripped(m, "alert_id");
      var usual := OnlyUsualCharacters(alertId);
      if alertId != "" && !usual {
        issues := [UnusualAlertId];
      }
    }
  }

  method CheckServices(section: string, m: Metadata) returns (issues: seq<Issue>)
    ensures issues == When(NoService(section, m), EmptyServices)
  {
    hide Stripped, NormalizeCsv;
    issues := [];
    var services := Stripped(m, "services");
    if (section == "runbooks" || section == "changes" || section == "dependencies") && services != "" {
      if NormalizeCsv(services) == [] {
        issues := [EmptyServices];
      }
    }
  }

  /** The checks of the validator, one after the other. */
  method ValidateFile(section: string, text: string) returns (issues: seq<Issue>)
    ensures issues == Findings(section, Parse(text).metadata)
    ensures HasError(issues) <==>
      && section in {"runbooks", "incidents", "changes", "dependencies", "deployments", "sops", "onboarding"}
      && !Lawful(section, Parse(text).metadata)
  {
    hide Lawful, Parse, HasError, Stripped, SECTIONS, RequiredKeys, ExpectedKind, Lower, BreaksNoRule, MissingFrom;
    hide WrongKind, WrongSeverity, OddAlertId, NoService;
    var m := ParseMetadata(text);
    ErrorsExactly(section, m);
    if section !in SECTIONS {
      return [UnknownSection(section)];
    }
    issues := [];
    var missing := CollectMissing(RequiredKeys(section), m);
    if missing != [] {
      issues := [MissingKeys(missing)];
    }
    var kind := CheckKind(section, m);
    var severity := CheckSeverity(section, m);
    var alertId := CheckAlertId(section, m);
    var services := CheckServices(section, m);
    issues := issues + kind + severity + alertId + services;
  }

  // ---------- what is said about completed files ----------

  lemma PrintedIsValidExactly(inc: Incident)
    requires Plain(inc)
    ensures BreaksNoRule("incidents", Clean(inc.Pairs())) <==> Named(inc)
  {
    hide BreaksNoRule, Clean, Strip, Plain;
    if Strip(inc.alertId) == "" {
      BlankIsMissing(inc, 0);
    } else if Strip(inc.alertName) == "" {
      BlankIsMissing(inc, 1);
    } else {
      PrintedIsValid(inc);
    }
  }

  /** A completed incident file breaks no rule exactly when it says its identifier or its
      name is not all white space, and it says its name, or has a heading, or its name is not
      all hyphens and white space. */
  lemma CompletedIsValidExactly(stem: string, text: string)
    requires StemIsPlain(stem, Parse(text))
    ensures BreaksNoRule("incidents", Parse(Normalize(stem, text)).metadata) <==> NamesAlert(stem, Parse(text))
  {
    hide Normalize, Read, Parse, Strip, Clean, Plain, FromName, BreaksNoRule, Settled, Serialize, Named, NamesAlert, StemIsPlain;
    TwoPasses(stem, text);
    ParsedIsPlain(text);
    NamedExactly(stem, Parse(text));
    PrintedIsValidExactly(Read(stem, Parse(text)));
  }

  /** So it does whenever the file's name holds a character other than hyphens and white
      space, whatever the text. */
  lemma CompletedIsValid(stem: string, text: string)
    requires StemIsPlain(stem, Parse(text)) && !AllGaps(stem)
    ensures BreaksNoRule("incidents", Parse(Normalize(stem, text)).metadata)
  {
    hide BreaksNoRule, Normalize, Parse, StemIsPlain, HasHeading, Gives;
    CompletedIsValidExactly(stem, text);
  }

  /** Another pass makes no file valid that was not, and none invalid that was. */
  lemma PassesKeepValidity(stem: string, text: string)
    requires StemIsPlain(stem, Parse(text))
    ensures var once := Normalize(stem, text);
      (BreaksNoRule("incidents", Parse(Normalize(stem, once)).metadata) <==> BreaksNoRule("incidents", Parse(once).metadata))
  {
    hide Normalize, Read, Parse, Strip, Clean, Plain, FromName, BreaksNoRule, Settled, Serialize, Named, StemIsPlain;
    var inc, body := Read(stem, Parse(text)), Parse(text).body;
    TwoPasses(stem, text);
    SettledIsPlain(inc);
    SettledIsFromName(stem, inc, Strip(body));
    NextPass(stem, Settled(inc), body);
    BodyStripsOnce(Settled(inc), body);
    PrintedIsValidExactly(inc);
    PrintedIsValidExactly(Settled(inc));
  }

  /** An empty file named by hyphens alone stays invalid however often it is completed. */
  lemma HyphensStayInvalid(stem: string)
    requires forall i :: 0 <= i < |stem| ==> stem[i] == '-'
    ensures var once := Normalize(stem, "");
      && !BreaksNoRule("incidents", Parse(once).metadata)
      && !BreaksNoRule("incidents", Parse(Normalize(stem, once)).metadata)
  {
    hide Normalize, Parse, BreaksNoRule, StemIsPlain, AlertIdFromStem;
    NothingParses();
    OneLineIsPlain(stem, Document([], ""));
    NothingSays();
    CompletedIsValidExactly(stem, "");
    PassesKeepValidity(stem, "");
  }

  /** With a line break in the name the promise fails: the header ends inside the
      identifier, and the other keys are never read. */
  lemma BreakInNameIsInvalid()
    ensures !AllGaps("a\nb") && !BreaksNoRule("incidents", Parse(Normalize("a\nb", "")).metadata)
  {
    hide Normalize, Parse, Strip, AllGaps, BreaksNoRule;
    var rest := BrokenFirstPass();
    LetterIsNoGap();
    OnlyIdIsInvalid();
  }

  lemma LetterIsNoGap()
    ensures !AllGaps("a\nb")
  {
    assert !IsGap("a\nb"[0]);
  }

  lemma OnlyIdIsInvalid()
    ensures !BreaksNoRule("incidents", [("alert_id", "A")])
  {
    var m: Metadata := [("alert_id", "A")];
    assert "alert_id"[0] == 'a' && "service"[0] == 's' && m[1..] == [];
    StripOfNothing();
    assert RequiredKeys("incidents")[2] == "service" && Stripped(m, "service") == "";
  }

  /** A field that is read as blank leaves its key out. */
  lemma BlankIsMissing(inc: Incident, i: nat)
    requires Plain(inc) && i < 5 && Strip(inc.Pairs()[i].1) == ""
    ensures !BreaksNoRule("incidents", Clean(inc.Pairs()))
  {
    hide Clean, Strip, RequiredKeys;
    RereadField(inc, i);
    RequiredOfIncidents(inc);
    assert Stripped(Clean(inc.Pairs()), RequiredKeys("incidents")[i]) == "";
  }

  lemma RequiredOfIncidents(inc: Incident)
    ensures |RequiredKeys("incidents")| == 5
    ensures forall i :: 0 <= i < 5 ==> RequiredKeys("incidents")[i] == inc.Pairs()[i].0
  {
    assert "incidents"[0] == 'i' && "runbooks"[0] == 'r' && "sops"[0] == 's' && "onboarding"[0] == 'o';
  }

  lemma RequiredIsThere(inc: Incident, i: nat)
    requires Plain(inc) && Named(inc) && i < 5
    ensures Stripped(Clean(inc.Pairs()), inc.Pairs()[i].0) != ""
  {
    hide Clean, Strip;
    SolidIsKept(inc.service);
    SeverityIsKept(inc.severity);
    SolidIsKept(inc.alertType);
    RereadField(inc, i);
  }

  lemma PrintedIsValid(inc: Incident)
    requires Plain(inc) && Named(inc)
    ensures BreaksNoRule("incidents", Clean(inc.Pairs()))
  {
    hide NormalizeSeverity, Clean, RequiredKeys, Stripped, Plain, Named;
    RequiredOfIncidents(inc);
    forall i | 0 <= i < 5 ensures Stripped(Clean(inc.Pairs()), RequiredKeys("incidents")[i]) != "" {
      RequiredIsThere(inc, i);
    }
    SeverityStays(inc);
  }

  lemma SeverityStays(inc: Incident)
    requires Plain(inc)
    ensures Lower(Stripped(Clean(inc.Pairs()), "severity")) == inc.severity && IsSeverity(inc.severity)
  {
    hide NormalizeSeverity, Clean, Strip, NoBreak, Solid;
    SeverityIsKept(inc.severity);
    RereadField(inc, 3);
    assert forall i :: 0 <= i < |inc.severity| ==> 'a' <= inc.severity[i] <= 'z';
    LowerIsKept(inc.severity);
  }
}
