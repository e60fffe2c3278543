/** The delivery layer's duplicate filter: an insertion-ordered dictionary from message
    identity to the time of its last mark, with expiry and eviction from the old end.

    What the filter promises is said against the whole history of marks, which the
    dictionary itself does not keep: `Remembered`. */
module MessageCache {
  import opened Text
  import opened Wrappers

  /** A mark: an identity and the clock reading stored for it (microseconds). */
  datatype Entry = Entry(token: string, at: int)

  /** Settings of one filter; `ttl` in microseconds. */
  datatype Config = Config(ttl: int, maxEntries: nat)

  // ---------- the dictionary ----------

  /** `entries.pop(token, None)`; a dictionary holds at most one entry per token. */
  function Without(es: seq<Entry>, token: string): seq<Entry> {
    if es == [] then []
    else if es[0].token == token then Without(es[1..], token)
    else [es[0]] + Without(es[1..], token)
  }

  /** Drops entries from the old end as long as they are older than the cutoff. */
  function Purged(es: seq<Entry>, cutoff: int): seq<Entry> {
    if es != [] && es[0].at < cutoff then Purged(es[1..], cutoff) else es
  }

  /** Drops entries from the old end down to the size bound. */
  function Evicted(es: seq<Entry>, maxEntries: nat): seq<Entry> {
    if |es| > maxEntries then Evicted(es[1..], maxEntries) else es
  }

  function Marked(cfg: Config, es: seq<Entry>, token: string, purgeAt: int, stampAt: int): seq<Entry> {
    Evicted(Without(Purged(es, purgeAt - cfg.ttl), token) + [Entry(token, stampAt)], cfg.maxEntries)
  }

  function Tokens(es: seq<Entry>): set<string> {
    if es == [] then {} else {es[0].token} + Tokens(es[1..])
  }

  // ---------- what is remembered, said about the history of marks ----------

  /** When `token` was last marked, and which identities have been marked after that. */
  ghost function LastMark(h: seq<Entry>, token: string): Option<(int, set<string>)> {
    if h == [] then None else
      var m := h[|h| - 1];
      if m.token == token then Some((m.at, {})) else
        match LastMark(h[..|h| - 1], token)
        case None => None
        case Some((at, others)) => Some((at, others + {m.token}))
  }

  /** The last mark of `token` is at most `ttl` old, and fewer than `maxEntries` other
      identities have been marked since. */
  ghost predicate Remembered(cfg: Config, h: seq<Entry>, token: string, now: int) {
    match LastMark(h, token)
    case None => false
    case Some((at, others)) => now - cfg.ttl <= at && |others| < cfg.maxEntries
  }

  /** `LastMark` by position: the mark found is the last of its token, and the identities
      reported are those marked after it. */
  lemma {:induction false} LastMarkPosition(h: seq<Entry>, token: string) returns (p: nat)
    requires LastMark(h, token).Some?
    ensures p < |h| && h[p] == Entry(token, LastMark(h, token).value.0)
    ensures forall q :: p < q < |h| ==> h[q].token != token
    ensures LastMark(h, token).value.1 == set q | p < q < |h| :: h[q].token
  {
    var n := |h| - 1;
    if h[n].token == token {
      p := n;
    } else {
      p := LastMarkPosition(h[..n], token);
      assert forall q :: p < q < n ==> h[..n][q] == h[q];
    }
  }

  lemma {:induction false} NeverMarked(h: seq<Entry>, token: string)
    ensures LastMark(h, token).None? <==> forall q :: 0 <= q < |h| ==> h[q].token != token
  {
    if h != [] {
      var n := |h| - 1;
      NeverMarked(h[..n], token);
      assert forall q :: 0 <= q < n ==> h[..n][q] == h[q];
    }
  }

  /** Times never decrease and none is later than `clock`. */
  ghost predicate Chronological(h: seq<Entry>, clock: int) {
    h == [] || (h[|h| - 1].at <= clock && Chronological(h[..|h| - 1], h[|h| - 1].at))
  }

  /** The dictionary as it would be without expiry and eviction. */
  ghost function Recency(h: seq<Entry>): seq<Entry> {
    if h == [] then [] else
      var m := h[|h| - 1];
      Without(Recency(h[..|h| - 1]), m.token) + [m]
  }

  ghost predicate Distinct(es: seq<Entry>) {
    es == [] || (es[0].token !in Tokens(es[1..]) && Distinct(es[1..]))
  }

  // ---------- facts about the pieces ----------

  lemma TokensConcat(a: seq<Entry>, b: seq<Entry>)
    ensures Tokens(a + b) == Tokens(a) + Tokens(b)
  {
    if a == [] {
      assert a + b == b;
    } else {
      TokensConcat(a[1..], b);
      assert (a + b)[1..] == a[1..] + b;
    }
  }

  lemma TokensPush(a: seq<Entry>, m: Entry)
    ensures Tokens(a + [m]) == Tokens(a) + {m.token}
  {
    TokensConcat(a, [m]);
    assert Tokens([m][1..]) == {};
  }

  lemma WithoutFirst(e: Entry, es: seq<Entry>, token: string)
    ensures Without([e] + es, token) == (if e.token == token then [] else [e]) + Without(es, token)
    ensures Without([], token) == []
  {
    assert ([e] + es)[1..] == es;
  }

  lemma {:induction false} WithoutConcat(a: seq<Entry>, b: seq<Entry>, token: string)
    ensures Without(a + b, token) == Without(a, token) + Without(b, token)
  {
    hide Without;
    if a == [] {
      WithoutFirst(Entry(token, 0), [], token);
      assert a + b == b && [] + Without(b, token) == Without(b, token);
    } else {
      WithoutConcat(a[1..], b, token);
      WithoutFirst(a[0], a[1..], token);
      WithoutFirst(a[0], a[1..] + b, token);
      assert a == [a[0]] + a[1..] && a + b == [a[0]] + (a[1..] + b);
    }
  }

  lemma WithoutTokens(es: seq<Entry>, token: string)
    ensures Tokens(Without(es, token)) == Tokens(es) - {token}
    ensures token !in Tokens(es) ==> Without(es, token) == es
  {
    if es != [] && es[0].token != token {
      WithoutTokens(es[1..], token);
      assert Without(es, token)[1..] == Without(es[1..], token);
    }
  }

  lemma WithoutDistinct(es: seq<Entry>, token: string)
    requires Distinct(es)
    ensures Distinct(Without(es, token))
    ensures |Without(es, token)| == |es| - if token in Tokens(es) then 1 else 0
  {
    if es != [] {
      WithoutDistinct(es[1..], token);
      WithoutTokens(es[1..], token);
      if es[0].token != token {
        assert Without(es, token)[1..] == Without(es[1..], token);
      }
    }
  }

  lemma DistinctConcat(a: seq<Entry>, b: seq<Entry>)
    ensures Distinct(a + b) <==> Distinct(a) && Distinct(b) && Tokens(a) !! Tokens(b)
  {
    if a == [] {
      assert a + b == b;
    } else {
      DistinctConcat(a[1..], b);
      TokensConcat(a[1..], b);
      assert (a + b)[1..] == a[1..] + b;
    }
  }

  lemma TokensCount(es: seq<Entry>)
    ensures |Tokens(es)| <= |es|
    ensures Distinct(es) ==> |Tokens(es)| == |es|
  {
    if es != [] {
      TokensCount(es[1..]);
      if es[0].token in Tokens(es[1..]) {
        assert Tokens(es) == Tokens(es[1..]);
      }
    }
  }

  lemma {:induction false} RecencyDistinct(h: seq<Entry>)
    ensures Distinct(Recency(h))
  {
    if h != [] {
      var r, m := Recency(h[..|h| - 1]), h[|h| - 1];
      RecencyDistinct(h[..|h| - 1]);
      WithoutDistinct(r, m.token);
      WithoutTokens(r, m.token);
      DistinctConcat(Without(r, m.token), [m]);
    }
  }

  lemma {:induction false} MarkedIsListed(h: seq<Entry>, token: string)
    requires LastMark(h, token).Some?
    ensures token in Tokens(Recency(h))
  {
    var r, m := Recency(h[..|h| - 1]), h[|h| - 1];
    TokensConcat(Without(r, m.token), [m]);
    WithoutTokens(r, m.token);
    if m.token != token {
      MarkedIsListed(h[..|h| - 1], token);
    }
  }

  lemma {:induction false} SplitAt(es: seq<Entry>, token: string) returns (a: seq<Entry>, e: Entry, b: seq<Entry>)
    requires token in Tokens(es)
    ensures es == a + [e] + b && e.token == token
  {
    if es[0].token == token {
      a, e, b := [], es[0], es[1..];
    } else {
      a, e, b := SplitAt(es[1..], token);
      a := [es[0]] + a;
    }
  }

  /** An entry that survives a removal splits the list it survives from. */
  lemma {:induction false} UnsplitWithout(es: seq<Entry>, token: string, a: seq<Entry>, e: Entry, b: seq<Entry>)
    returns (a0: seq<Entry>, b0: seq<Entry>)
    requires Without(es, token) == a + [e] + b
    ensures es == a0 + [e] + b0 && Without(b0, token) == b && e.token != token
  {
    if es[0].token == token {
      a0, b0 := UnsplitWithout(es[1..], token, a, e, b);
      a0 := [es[0]] + a0;
    } else if a == [] {
      a0, b0 := [], es[1..];
      assert (a + [e] + b)[1..] == b;
    } else {
      assert (a + [e] + b)[1..] == a[1..] + [e] + b;
      a0, b0 := UnsplitWithout(es[1..], token, a[1..], e, b);
      a0 := [es[0]] + a0;
    }
  }

  lemma LastSplit(a: seq<Entry>, m: Entry, b: seq<Entry>, n: Entry)
    requires a + [m] == b + [n]
    ensures a == b && m == n
  {
    assert |a| == |b|;
    assert (a + [m])[..|a|] == a && (b + [n])[..|b|] == b;
    assert (a + [m])[|a|] == m && (b + [n])[|b|] == n;
  }

  /** The recency order is exactly the order of last marks: what stands behind an entry is
      what has been marked since. */
  lemma {:induction false} RecencyIsLastMark(h: seq<Entry>, a: seq<Entry>, e: Entry, b: seq<Entry>)
    requires Recency(h) == a + [e] + b
    ensures LastMark(h, e.token) == Some((e.at, Tokens(b)))
  {
    var r, m := Recency(h[..|h| - 1]), h[|h| - 1];
    if b == [] {
      assert (a + [e] + b)[|a|] == e;
    } else {
      var b' := b[..|b| - 1];
      assert a + [e] + b == (a + [e] + b') + [b[|b| - 1]];
      LastSplit(Without(r, m.token), m, a + [e] + b', b[|b| - 1]);
      var a0, b0 := UnsplitWithout(r, m.token, a, e, b');
      RecencyIsLastMark(h[..|h| - 1], a0, e, b0);
      WithoutTokens(b0, m.token);
      TokensPush(b', m);
      assert b == b' + [m];
      assert Tokens(b0) + {m.token} == Tokens(b') + {m.token};
    }
  }

  lemma ChronologicalPush(es: seq<Entry>, clock: int, m: Entry, now: int)
    requires Chronological(es, clock) && clock <= m.at <= now
    ensures Chronological(es + [m], now)
  {
    assert (es + [m])[..|es|] == es;
    if es != [] {
      assert Chronological(es, m.at);
    }
  }

  lemma {:induction false} WithoutChronological(es: seq<Entry>, clock: int, token: string)
    requires Chronological(es, clock)
    ensures Chronological(Without(es, token), clock)
  {
    if es != [] {
      var init, m := es[..|es| - 1], es[|es| - 1];
      assert es == init + [m];
      WithoutConcat(init, [m], token);
      WithoutChronological(init, m.at, token);
      if m.token == token {
        assert Without(es, token) == Without(init, token);
        assert Chronological(Without(init, token), clock);
      } else {
        ChronologicalPush(Without(init, token), m.at, m, clock);
      }
    }
  }

  lemma {:induction false} RecencyChronological(h: seq<Entry>, clock: int)
    requires Chronological(h, clock)
    ensures Chronological(Recency(h), clock)
  {
    if h != [] {
      var m := h[|h| - 1];
      RecencyChronological(h[..|h| - 1], m.at);
      WithoutChronological(Recency(h[..|h| - 1]), m.at, m.token);
      ChronologicalPush(Without(Recency(h[..|h| - 1]), m.token), m.at, m, clock);
    }
  }

  lemma {:induction false} EarlierIsOlder(g: seq<Entry>, a: seq<Entry>, e: Entry, b: seq<Entry>, clock: int)
    requires Chronological(g + (a + [e] + b), clock)
    ensures a != [] ==> a[0].at <= e.at
  {
    var es := g + (a + [e] + b);
    if a == [] {
    } else if b == [] {
      assert es[..|es| - 1] == g + (a[..|a| - 1] + [a[|a| - 1]] + []);
      EarlierIsOlder(g, a[..|a| - 1], a[|a| - 1], [], es[|es| - 1].at);
    } else {
      assert es[..|es| - 1] == g + (a + [e] + b[..|b| - 1]);
      EarlierIsOlder(g, a, e, b[..|b| - 1], es[|es| - 1].at);
    }
  }

  // ---------- the invariant ----------

  /** Every entry of `gone` has expired, or has `maxEntries` entries behind it; `behind`
      more entries follow `gone`. */
  ghost predicate Gone(cfg: Config, gone: seq<Entry>, behind: nat, clock: int) {
    gone != [] ==>
      && (gone[0].at < clock - cfg.ttl || |gone| + behind > cfg.maxEntries)
      && Gone(cfg, gone[1..], behind, clock)
  }

  /** The dictionary is the recent end of the recency order. */
  ghost predicate RecentEnd(cfg: Config, gone: seq<Entry>, es: seq<Entry>, h: seq<Entry>, clock: int) {
    && Recency(h) == gone + es
    && |es| <= cfg.maxEntries
    && Gone(cfg, gone, |es|, clock)
  }

  ghost predicate Refines(cfg: Config, es: seq<Entry>, h: seq<Entry>, clock: int) {
    && Chronological(h, clock)
    && exists gone :: RecentEnd(cfg, gone, es, h, clock)
  }

  lemma GoneLater(cfg: Config, gone: seq<Entry>, behind: nat, clock: int, now: int)
    requires Gone(cfg, gone, behind, clock) && clock <= now
    ensures Gone(cfg, gone, behind, now)
  {
  }

  /** Whatever is dropped from the old end for a good reason joins what is gone. */
  lemma GoneConcat(cfg: Config, a: seq<Entry>, b: seq<Entry>, behind: nat, clock: int)
    requires Gone(cfg, a, |b| + behind, clock) && Gone(cfg, b, behind, clock)
    ensures Gone(cfg, a + b, behind, clock)
  {
    if a == [] {
      assert a + b == b;
    } else {
      GoneConcat(cfg, a[1..], b, behind, clock);
      assert (a + b)[1..] == a[1..] + b;
    }
  }

  lemma {:induction false} GoneWithout(cfg: Config, gone: seq<Entry>, behind: nat, behind': nat, clock: int, token: string)
    requires Gone(cfg, gone, behind, clock) && Distinct(gone)
    requires behind' >= behind + if token in Tokens(gone) then 1 else 0
    ensures Gone(cfg, Without(gone, token), behind', clock)
  {
    if gone != [] {
      GoneWithout(cfg, gone[1..], behind, behind', clock, token);
      WithoutDistinct(gone, token);
      if gone[0].token != token {
        assert Without(gone, token)[1..] == Without(gone[1..], token);
      }
    }
  }

  lemma {:induction false} PurgeSplits(cfg: Config, es: seq<Entry>, clock: int) returns (dropped: seq<Entry>)
    ensures es == dropped + Purged(es, clock - cfg.ttl)
    ensures forall n: nat :: Gone(cfg, dropped, n, clock)
    ensures var kept := Purged(es, clock - cfg.ttl); kept != [] ==> clock - cfg.ttl <= kept[0].at
  {
    if es != [] && es[0].at < clock - cfg.ttl {
      var d := PurgeSplits(cfg, es[1..], clock);
      dropped := [es[0]] + d;
      assert dropped[1..] == d;
    } else {
      dropped := [];
    }
  }

  lemma {:induction false} EvictSplits(cfg: Config, es: seq<Entry>, clock: int) returns (dropped: seq<Entry>)
    ensures es == dropped + Evicted(es, cfg.maxEntries)
    ensures |Evicted(es, cfg.maxEntries)| <= cfg.maxEntries
    ensures Gone(cfg, dropped, |Evicted(es, cfg.maxEntries)|, clock)
  {
    if |es| > cfg.maxEntries {
      var d := EvictSplits(cfg, es[1..], clock);
      dropped := [es[0]] + d;
      assert dropped[1..] == d;
    } else {
      dropped := [];
    }
  }

  lemma PurgeKeeps(cfg: Config, es: seq<Entry>, h: seq<Entry>, clock: int, now: int)
    requires Refines(cfg, es, h, clock) && clock <= now
    ensures Refines(cfg, Purged(es, now - cfg.ttl), h, now)
  {
    var gone :| RecentEnd(cfg, gone, es, h, clock);
    var dropped := PurgeSplits(cfg, es, now);
    var kept := Purged(es, now - cfg.ttl);
    GoneLater(cfg, gone, |es|, clock, now);
    GoneConcat(cfg, gone, dropped, |kept|, now);
    assert gone + es == (gone + dropped) + kept;
    assert RecentEnd(cfg, gone + dropped, kept, h, now);
  }

  /** Moving a token to the new end takes it out of what is gone, too. */
  lemma MoveToEnd(cfg: Config, gone: seq<Entry>, kept: seq<Entry>, now: int, m: Entry)
    requires Distinct(gone + kept) && Gone(cfg, gone, |kept|, now)
    ensures Gone(cfg, Without(gone, m.token), |Without(kept, m.token) + [m]|, now)
  {
    DistinctConcat(gone, kept);
    WithoutDistinct(kept, m.token);
    GoneWithout(cfg, gone, |kept|, |Without(kept, m.token) + [m]|, now, m.token);
  }

  lemma RecencyPush(h: seq<Entry>, gone: seq<Entry>, kept: seq<Entry>, m: Entry)
    requires Recency(h) == gone + kept
    ensures Recency(h + [m]) == Without(gone, m.token) + (Without(kept, m.token) + [m])
  {
    assert (h + [m])[..|h|] == h;
    WithoutConcat(gone, kept, m.token);
  }

  lemma EvictKeeps(cfg: Config, gone: seq<Entry>, grown: seq<Entry>, h: seq<Entry>, clock: int) returns (gone': seq<Entry>)
    requires Recency(h) == gone + grown && Gone(cfg, gone, |grown|, clock)
    ensures RecentEnd(cfg, gone', Evicted(grown, cfg.maxEntries), h, clock)
  {
    var dropped := EvictSplits(cfg, grown, clock);
    var es := Evicted(grown, cfg.maxEntries);
    GoneConcat(cfg, gone, dropped, |es|, clock);
    gone' := gone + dropped;
    assert gone + (dropped + es) == gone' + es;
  }

  lemma MarkRecentEnd(cfg: Config, gone: seq<Entry>, kept: seq<Entry>, h: seq<Entry>, clock: int, m: Entry)
    returns (gone': seq<Entry>)
    requires RecentEnd(cfg, gone, kept, h, clock) && clock <= m.at
    ensures RecentEnd(cfg, gone', Evicted(Without(kept, m.token) + [m], cfg.maxEntries), h + [m], m.at)
  {
    RecencyPush(h, gone, kept, m);
    RecencyDistinct(h);
    GoneLater(cfg, gone, |kept|, clock, m.at);
    MoveToEnd(cfg, gone, kept, m.at, m);
    gone' := EvictKeeps(cfg, Without(gone, m.token), Without(kept, m.token) + [m], h + [m], m.at);
  }

  lemma MarkKeeps(cfg: Config, es: seq<Entry>, h: seq<Entry>, clock: int, token: string, purgeAt: int, stampAt: int)
    requires Refines(cfg, es, h, clock) && clock <= purgeAt <= stampAt
    ensures Refines(cfg, Marked(cfg, es, token, purgeAt, stampAt), h + [Entry(token, stampAt)], stampAt)
  {
    var m, kept := Entry(token, stampAt), Purged(es, purgeAt - cfg.ttl);
    PurgeKeeps(cfg, es, h, clock, purgeAt);
    var gone :| RecentEnd(cfg, gone, kept, h, purgeAt);
    var gone' := MarkRecentEnd(cfg, gone, kept, h, purgeAt, m);
    ChronologicalPush(h, clock, m, stampAt);
  }

  lemma {:induction false} GoneAt(cfg: Config, gone: seq<Entry>, behind: nat, clock: int, i: nat)
    requires Gone(cfg, gone, behind, clock) && i < |gone|
    ensures gone[i].at < clock - cfg.ttl || |gone| - i + behind > cfg.maxEntries
  {
    if i > 0 {
      GoneAt(cfg, gone[1..], behind, clock, i - 1);
    }
  }

  lemma HeldIsRemembered(cfg: Config, es: seq<Entry>, h: seq<Entry>, now: int, token: string)
    requires Refines(cfg, es, h, now) && token in Tokens(es)
    requires now - cfg.ttl <= es[0].at
    ensures Remembered(cfg, h, token, now)
  {
    var gone :| RecentEnd(cfg, gone, es, h, now);
    var a, e, b := SplitAt(es, token);
    assert gone + es == (gone + a) + [e] + b;
    RecencyIsLastMark(h, gone + a, e, b);
    RecencyChronological(h, now);
    EarlierIsOlder(gone, a, e, b, now);
    TokensCount(b);
  }

  lemma RememberedIsHeld(cfg: Config, es: seq<Entry>, h: seq<Entry>, now: int, token: string)
    requires Refines(cfg, es, h, now) && Remembered(cfg, h, token, now)
    ensures token in Tokens(es)
  {
    var gone :| RecentEnd(cfg, gone, es, h, now);
    MarkedIsListed(h, token);
    TokensConcat(gone, es);
    if token in Tokens(gone) {
      var a, e, b := SplitAt(gone, token);
      assert gone + es == a + [e] + (b + es);
      RecencyIsLastMark(h, a, e, b + es);
      GoneAt(cfg, gone, |es|, now, |a|);
      RecencyDistinct(h);
      DistinctConcat(a + [e], b + es);
      assert gone + es == (a + [e]) + (b + es);
      TokensCount(b + es);
      assert false;
    }
  }

  /** Purging from the old end alone is complete: what survives is exactly what is remembered. */
  lemma PurgedHoldsExactly(cfg: Config, es: seq<Entry>, h: seq<Entry>, clock: int, now: int, token: string)
    requires Refines(cfg, es, h, clock) && clock <= now
    ensures token in Tokens(Purged(es, now - cfg.ttl)) <==> Remembered(cfg, h, token, now)
  {
    var kept := Purged(es, now - cfg.ttl);
    PurgeKeeps(cfg, es, h, clock, now);
    if token in Tokens(kept) {
      var _ := PurgeSplits(cfg, es, now);
      HeldIsRemembered(cfg, kept, h, now, token);
    }
    if Remembered(cfg, h, token, now) {
      RememberedIsHeld(cfg, kept, h, now, token);
    }
  }

  lemma PurgedTokens(es: seq<Entry>, cutoff: int)
    ensures Tokens(Purged(es, cutoff)) <= Tokens(es)
  {
  }

  lemma EvictedTokens(es: seq<Entry>, maxEntries: nat)
    ensures Tokens(Evicted(es, maxEntries)) <= Tokens(es)
  {
  }

  lemma MarkedTokens(cfg: Config, es: seq<Entry>, token: string, purgeAt: int, stampAt: int)
    ensures Tokens(Marked(cfg, es, token, purgeAt, stampAt)) <= Tokens(es) + {token}
  {
    var kept := Purged(es, purgeAt - cfg.ttl);
    PurgedTokens(es, purgeAt - cfg.ttl);
    WithoutTokens(kept, token);
    TokensPush(Without(kept, token), Entry(token, stampAt));
    EvictedTokens(Without(kept, token) + [Entry(token, stampAt)], cfg.maxEntries);
  }

  // ---------- marks made only when they are not remembered ----------

  /** Between two marks of one identity it has expired, or been pushed out. */
  ghost predicate Separated(c: Config, marks: seq<Entry>) {
    marks == [] ||
    var init, m := marks[..|marks| - 1], marks[|marks| - 1];
    Separated(c, init) && !Remembered(c, init, m.token, m.at)
  }

  lemma MarkKeepsSeparated(c: Config, marks: seq<Entry>, token: string, clock: int, at: int)
    requires Separated(c, marks) && !Remembered(c, marks, token, clock) && clock <= at
    ensures Separated(c, marks + [Entry(token, at)])
  {
    assert (marks + [Entry(token, at)])[..|marks|] == marks;
  }

  lemma NothingMarked(c: Config, clock: int)
    ensures Refines(c, [], [], clock) && Separated(c, [])
  {
    assert RecentEnd(c, [], [], [], clock);
  }

  lemma {:induction false} SeparatedAt(c: Config, marks: seq<Entry>, j: nat)
    requires Separated(c, marks) && j < |marks|
    ensures !Remembered(c, marks[..j], marks[j].token, marks[j].at)
  {
    var n := |marks| - 1;
    if j < n {
      SeparatedAt(c, marks[..n], j);
      assert marks[..n][..j] == marks[..j];
    }
  }

  lemma {:induction false} ChronologicalAt(h: seq<Entry>, clock: int, i: nat, j: nat)
    requires Chronological(h, clock) && i <= j < |h|
    ensures h[i].at <= h[j].at <= clock
  {
    var n := |h| - 1;
    if j < n {
      ChronologicalAt(h[..n], h[n].at, i, j);
    } else if i < n {
      ChronologicalAt(h[..n], h[n].at, i, n - 1);
    }
  }

  lemma SubsetSize(a: set<string>, b: set<string>)
    requires a <= b
    ensures |a| <= |b|
  {
    if a != {} {
      var x :| x in a;
      SubsetSize(a - {x}, b - {x});
    }
  }

  function OtherTokens(marks: seq<Entry>, token: string): set<string> {
    set m | m in marks && m.token != token :: m.token
  }

  /** Two marks of one identity are more than the time-to-live apart, or at least
      `maxEntries` other identities were marked between them. */
  lemma MarksAreSeparated(c: Config, marks: seq<Entry>, clock: int, i: nat, j: nat)
    requires Chronological(marks, clock) && Separated(c, marks)
    requires i < j < |marks| && marks[i].token == marks[j].token
    ensures marks[i].at < marks[j].at - c.ttl || |OtherTokens(marks[i + 1..j], marks[j].token)| >= c.maxEntries
  {
    var h, token := marks[..j], marks[j].token;
    SeparatedAt(c, marks, j);
    NeverMarked(h, token);
    assert h[i].token == token;
    var p := LastMarkPosition(h, token);
    assert i <= p;
    ChronologicalAt(marks, clock, i, p);
    var between := OtherTokens(marks[i + 1..j], token);
    var since := LastMark(h, token).value.1;
    forall t | t in since ensures t in between {
      var q :| p < q < j && h[q].token == t;
      assert marks[i + 1..j][q - (i + 1)].token == t;
    }
    SubsetSize(since, between);
  }

  // ---------- the class ----------

  class ProcessedMessageCache {
    const cfg: Config
    var entries: seq<Entry>
    ghost var history: seq<Entry>  // every mark so far
    ghost var clock: int           // the latest clock reading used

    ghost predicate Valid()
      reads this
    {
      Refines(cfg, entries, history, clock)
    }

    /** Neither setting can fall below its floor; zero means the default. */
    constructor (ttlSeconds: int := 3600, maxEntries: int := 10000, ghost start: int)
      ensures Valid() && entries == [] && history == [] && clock == start
      ensures cfg.ttl >= 60_000_000 && cfg.maxEntries >= 100
      ensures ttlSeconds >= 60 ==> cfg.ttl == ttlSeconds * 1_000_000
      ensures ttlSeconds == 0 ==> cfg.ttl == 3_600_000_000
      ensures ttlSeconds != 0 && ttlSeconds < 60 ==> cfg.ttl == 60_000_000
      ensures maxEntries >= 100 ==> cfg.maxEntries == maxEntries
      ensures maxEntries == 0 ==> cfg.maxEntries == 10000
      ensures maxEntries != 0 && maxEntries < 100 ==> cfg.maxEntries == 100
    {
      var seconds := if ttlSeconds == 0 then 3600 else ttlSeconds;
      var bound := if maxEntries == 0 then 10000 else maxEntries;
      cfg := Config((if seconds > 60 then seconds else 60) * 1_000_000, if bound > 100 then bound else 100);
      entries := [];
      history := [];
      clock := start;
      new;
      assert RecentEnd(cfg, [], entries, history, clock);
    }

    method PurgeExpired(now: int)
      requires Valid() && clock <= now
      modifies this
      ensures Valid() && clock == now && history == old(history)
      ensures entries == Purged(old(entries), now - cfg.ttl)
    {
      var cutoff := now - cfg.ttl;
      while entries != []
        invariant Purged(entries, cutoff) == Purged(old(entries), cutoff)
        invariant history == old(history) && clock == old(clock)
      {
        if entries[0].at >= cutoff {
          break;
        }
        entries := entries[1..];
      }
      PurgeKeeps(cfg, old(entries), history, clock, now);
      clock := now;
    }

    /** True exactly for a non-blank key whose last mark is fresh enough and has fewer than
        `maxEntries` other identities marked after it. */
    method Contains(key: Option<string>, now: int) returns (found: bool)
      requires Valid() && clock <= now
      modifies this
      ensures Valid() && history == old(history)
      ensures found <==> key.Some? && Strip(key.value) != "" && Remembered(cfg, history, Strip(key.value), now)
      ensures key.Some? && key.value != "" ==> clock == now && entries == Purged(old(entries), now - cfg.ttl)
      ensures key.None? || key.value == "" ==> clock == old(clock) && entries == old(entries)
    {
      if key.None? || key.value == "" {
        return false;
      }
      PurgedHoldsExactly(cfg, entries, history, clock, now, Strip(key.value));
      PurgeExpired(now);
      var token := Strip(key.value);
      if token == "" {
        return false;
      }
      found := token in Tokens(entries);
    }

    /** A non-blank key is appended to the history; any other call changes nothing. */
    method Mark(key: Option<string>, purgeAt: int, stampAt: int)
      requires Valid() && clock <= purgeAt <= stampAt
      modifies this
      ensures Valid()
      ensures key.Some? && Strip(key.value) != "" ==>
        && history == old(history) + [Entry(Strip(key.value), stampAt)] && clock == stampAt
        && entries == Marked(cfg, old(entries), Strip(key.value), purgeAt, stampAt)
      ensures key.None? || Strip(key.value) == "" ==>
        history == old(history) && clock == old(clock) && entries == old(entries)
    {
      if key.None? || key.value == "" {
        return;
      }
      var token := Strip(key.value);
      if token == "" {
        return;
      }
      PurgeExpired(purgeAt);
      entries := Without(entries, token);
      entries := entries + [Entry(token, stampAt)];
      ghost var grown := entries;
      while |entries| > cfg.maxEntries
        invariant Evicted(entries, cfg.maxEntries) == Evicted(grown, cfg.maxEntries)
        invariant history == old(history)
      {
        entries := entries[1..];
      }
      MarkKeeps(cfg, old(entries), old(history), old(clock), token, purgeAt, stampAt);
      history := history + [Entry(token, stampAt)];
      clock := stampAt;
    }
  }
}
