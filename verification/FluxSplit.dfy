/**
  The rewrite of internal/flux/split.go: a Flux query whose range runs up to now is cut at
  the cutoff into a cached query and a live query. Queries are texts; the first match of the
  first pattern that matches anywhere decides the form.
*/
module FluxSplit {
  import opened Text
  import opened Patterns
  import opened RangeCall
  import Modular
  import T = Rfc3339

  // ---------- the leftmost match ----------

  /** FindStringSubmatch: the text before the leftmost match, and the match. */
  function Find(g: Grammar, form: Form, q: string): (r: Option<(string, Call)>)
    ensures r.Some? ==> |r.value.0| + |r.value.1.rest| <= |q|
  {
    var m := MatchCall(g, form, q);
    if m.Some? then Some(("", m.value))
    else if q == "" then None
    else
      var r := Find(g, form, q[1..]);
      if r.None? then None else Some(([q[0]] + r.value.0, r.value.1))
  }

  lemma {:induction false} FoundMatches(g: Grammar, form: Form, q: string)
    requires Find(g, form, q).Some?
    ensures var (pre, c) := Find(g, form, q).value;
            pre <= q && MatchCall(g, form, q[|pre|..]) == Some(c)
  {
    hide MatchCall;
    if MatchCall(g, form, q).Some? {
      assert q[0..] == q;
    } else {
      FoundMatches(g, form, q[1..]);
      var pre := Find(g, form, q[1..]).value.0;
      assert q[|pre| + 1..] == q[1..][|pre|..];
      assert [q[0]] + pre <= q;
    }
  }

  lemma {:induction false} NoneEarlier(g: Grammar, form: Form, q: string, k: nat)
    requires k <= |q|
    requires var r := Find(g, form, q); r.Some? ==> k < |r.value.0|
    ensures MatchCall(g, form, q[k..]).None?
  {
    hide MatchCall;
    assert q[0..] == q;
    if k > 0 {
      NoneEarlier(g, form, q[1..], k - 1);
      assert q[k..] == q[1..][k - 1..];
    }
  }

  /** What Find finds is the leftmost match: it is there, and nothing matches earlier (or anywhere, if nothing is found). */
  lemma FindIsLeftmost(g: Grammar, form: Form, q: string)
    ensures var r := Find(g, form, q);
      && (r.Some? ==> r.value.0 <= q && MatchCall(g, form, q[|r.value.0|..]) == Some(r.value.1))
      && (forall k: nat :: k <= |q| && (r.Some? ==> k < |r.value.0|) ==> MatchCall(g, form, q[k..]).None?)
  {
    hide MatchCall, Find;
    var r := Find(g, form, q);
    if r.Some? {
      FoundMatches(g, form, q);
    }
    forall k: nat | k <= |q| && (r.Some? ==> k < |r.value.0|) ensures MatchCall(g, form, q[k..]).None? {
      NoneEarlier(g, form, q, k);
    }
  }

  /** The other way round: a match with none before it is the one that is found. */
  lemma {:induction false} FindFirst(g: Grammar, form: Form, pre: string, s: string, c: Call)
    requires MatchCall(g, form, s) == Some(c)
    requires forall k: nat :: k < |pre| ==> MatchCall(g, form, (pre + s)[k..]).None?
    ensures Find(g, form, pre + s) == Some((pre, c))
  {
    hide MatchCall;
    var q := pre + s;
    if pre == "" {
      assert q == s;
    } else {
      assert q[0..] == q;
      assert q[1..] == pre[1..] + s;
      forall k: nat | k < |pre| - 1 ensures MatchCall(g, form, q[1..][k..]).None? {
        assert q[1..][k..] == q[k + 1..];
      }
      FindFirst(g, form, pre[1..], s, c);
      assert [q[0]] + pre[1..] == pre;
    }
  }

  lemma FindNothing(g: Grammar, form: Form, q: string)
    requires forall k: nat :: k <= |q| ==> MatchCall(g, form, q[k..]).None?
    ensures Find(g, form, q).None?
  {
    hide MatchCall, Find;
    FindIsLeftmost(g, form, q);
  }

  /** The matched text, m[0] of the submatches. */
  function Matched(q: string, pre: string, c: Call): string
    requires |pre| + |c.rest| <= |q|
  {
    q[|pre|..|q| - |c.rest|]
  }

  // ---------- the rewrite ----------

  function RangeText(start: string, stop: string): string {
    "range(start: " + start + ", stop: " + stop + ")"
  }

  /** cutoffExpr; quoting with %q adds nothing but the quotes, since a timestamp has no character to escape. */
  function CutoffExpr(t: T.Instant): string {
    "time(v: \"" + T.Format(t) + "\")"
  }

  /** strings.Trim(s, `"`). */
  function TrimQuotes(s: string): string
    decreases |s|
  {
    if s != "" && s[0] == '"' then TrimQuotes(s[1..])
    else if s != "" && s[|s| - 1] == '"' then TrimQuotes(s[..|s| - 1])
    else s
  }

  /** The argument of time(v: "...") or time(v: '...') when the whole text is one. */
  function TimeArg(g: Grammar, e: string): Option<string> {
    var o := Eat(g.time, e);
    if o.Some? && o.value != "" && IsQuote(o.value[0]) then
      var b := EatRun(o.value[0], g.Arg(o.value[0]), o.value[1..]);
      if b.Some? && b.value.1 == "" then Some(b.value.0) else None
    else None
  }

  /** parseFluxTimeExpr. */
  function ParseTime(g: Grammar, expr: string): Option<T.Instant> {
    var e := Trim(expr);
    var a := TimeArg(g, e);
    if a.Some? then T.Parse(a.value) else T.Parse(TrimQuotes(e))
  }

  const MAX_DURATION: int := 0x7FFF_FFFF_FFFF_FFFF
  const MIN_DURATION: int := -0x8000_0000_0000_0000

  /** time.Time.Sub: the difference, clamped to what a Duration can hold. */
  function Sub(t: T.Instant, u: T.Instant): int {
    if t - u > MAX_DURATION then MAX_DURATION
    else if t - u < MIN_DURATION then MIN_DURATION
    else t - u
  }

  /** The start of the cached range for an absolute stop: as far before the cutoff as the start is before the stop. */
  function CachedStart(g: Grammar, start: string, stop: T.Instant, cutoff: T.Instant): string {
    var s := ParseTime(g, Trim(start));
    if s.Some? && s.value < stop then
      var window := Sub(stop, s.value);
      if window > 0 then CutoffExpr(cutoff - window) else Trim(start)
    else Trim(start)
  }

  /** buildSplitQueries. */
  function Build(q: string, matched: string, start: string, cachedStop: string, liveStop: string): (string, string) {
    (ReplaceFirst(q, matched, RangeText(Trim(start), cachedStop)),
     ReplaceFirst(q, matched, RangeText(cachedStop, liveStop)))
  }

  function SplitAbs(g: Grammar, q: string, cutoff: T.Instant): Option<(string, string)> {
    var m := Find(g, AbsStop, q);
    if m.None? then None else
    var (pre, c) := m.value;
    var stop := ParseTime(g, c.stop);
    if stop.None? || !(cutoff < stop.value) then None
    else Some(Build(q, Matched(q, pre, c), CachedStart(g, c.start, stop.value, cutoff), CutoffExpr(cutoff), Trim(c.stop)))
  }

  /** SplitNowQuery: the cached and the live query, or nothing when the query is not split. */
  function SplitNowQuery(g: Grammar, q: string, cutoff: T.Instant): Option<(string, string)> {
    var n := Find(g, NowStop, q);
    if n.Some? then
      Some(Build(q, Matched(q, n.value.0, n.value.1), n.value.1.start, CutoffExpr(cutoff), "now()"))
    else
      var v := Find(g, VarStop, q);
      if v.Some? then
        Some(Build(q, Matched(q, v.value.0, v.value.1), v.value.1.start, CutoffExpr(cutoff), "v.timeRangeStop"))
      else SplitAbs(g, q, cutoff)
  }

  /** SplitCutoff: now, rounded down to a multiple of the freshness window. */
  function SplitCutoff(now: T.Instant, window: int): (c: T.Instant)
    ensures window <= 0 ==> c == now
    ensures window > 0 ==> c <= now < c + window && c % window == 0
  {
    if window <= 0 then now
    else
      Modular.FloorMultiple(now, window);
      now - now % window
  }

  // ---------- the replacement hits the match ----------

  /**
    The first textual occurrence of the matched text is the match itself, so replacing the
    first occurrence changes the match and nothing else. This holds for any matcher whose
    verdict depends on the matched text alone.
  */
  lemma ReplaceHitsMatch(g: Grammar, form: Form, q: string, pre: string, c: Call, x: string)
    requires Sound(g) && Find(g, form, q) == Some((pre, c))
    ensures q == pre + Matched(q, pre, c) + c.rest
    ensures ReplaceFirst(q, Matched(q, pre, c), x) == pre + x + c.rest
  {
    hide MatchCall, Find, Sound;
    FindIsLeftmost(g, form, q);
    var t := Matched(q, pre, c);
    MatchedSlice(q, pre, c);
    forall k: nat | k < |pre| ensures !OccursAt(q, t, k) {
      if OccursAt(q, t, k) {
        assert q[k..] == t + q[k + |t|..];
        CallLocal(g, form, q[|pre|..], c, q[k + |t|..]);
      }
    }
    var i := IndexOf(q, t);
    assert i == Some(|pre|);
    assert q[..|pre|] == pre && q[|pre| + |t|..] == c.rest;
  }

  lemma MatchedSlice(q: string, pre: string, c: Call)
    requires pre <= q && SuffixOf(c.rest, q[|pre|..])
    ensures var t := Matched(q, pre, c);
            var s := q[|pre|..];
            s[..|s| - |c.rest|] == t && q == pre + t + c.rest && OccursAt(q, t, |pre|)
  {
  }

  // ---------- the shape of the result ----------

  /** The pattern that decides, the text before its match, and the match. */
  function Recognise(g: Grammar, q: string): (r: Option<(Form, string, Call)>)
    ensures r.Some? ==> Find(g, r.value.0, q) == Some((r.value.1, r.value.2))
  {
    var n := Find(g, NowStop, q);
    if n.Some? then Some((NowStop, n.value.0, n.value.1)) else
    var v := Find(g, VarStop, q);
    if v.Some? then Some((VarStop, v.value.0, v.value.1)) else
    var a := Find(g, AbsStop, q);
    if a.Some? then Some((AbsStop, a.value.0, a.value.1)) else None
  }

  /** Whether the recognised call is split: an absolute stop has to parse and to lie after the cutoff. */
  predicate Splits(g: Grammar, form: Form, c: Call, cutoff: T.Instant) {
    form.AbsStop? ==> var stop := ParseTime(g, c.stop); stop.Some? && cutoff < stop.value
  }

  function StartFor(g: Grammar, form: Form, c: Call, cutoff: T.Instant): string {
    var stop := ParseTime(g, c.stop);
    if form.AbsStop? && stop.Some? then CachedStart(g, c.start, stop.value, cutoff) else Trim(c.start)
  }

  lemma CutoffExprTight(t: T.Instant)
    ensures Tight(CutoffExpr(t)) && CutoffExpr(t) != ""
    ensures ',' !in CutoffExpr(t) && 'r' !in CutoffExpr(t)
  {
    hide T.Format;
    T.FormatIsStamp(t);
    StampHasNone(T.Format(t));
    var e := CutoffExpr(t);
    assert e[0] == 't' && e[|e| - 1] == ')';
  }

  lemma StampHasNone(f: string)
    requires T.Stamp(f)
    ensures ',' !in f && 'r' !in f && '"' !in f
  {
  }

  lemma StopIsTight(g: Grammar, form: Form, q: string, c: Call)
    requires Sound(g) && MatchCall(g, form, q) == Some(c)
    ensures Tight(c.stop)
  {
    hide Eat, MatchCall, Sound;
    var h, t := CallSound(g, form, q, c);
    if form.AbsStop? {
      var a, x :| AbsParts(g, t, a, x, c.stop);
    }
  }

  lemma BuildHits(g: Grammar, form: Form, q: string, pre: string, c: Call, start: string, cachedStop: string, liveStop: string)
    requires Sound(g) && Find(g, form, q) == Some((pre, c)) && Tight(start)
    ensures Build(q, Matched(q, pre, c), start, cachedStop, liveStop) ==
            (pre + RangeText(start, cachedStop) + c.rest, pre + RangeText(cachedStop, liveStop) + c.rest)
  {
    hide Find, Sound;
    TrimOfTight(start);
    ReplaceHitsMatch(g, form, q, pre, c, RangeText(start, cachedStop));
    ReplaceHitsMatch(g, form, q, pre, c, RangeText(cachedStop, liveStop));
  }

  /** The rewrite in terms of the recognised call. */
  lemma SplitBuilds(g: Grammar, q: string, cutoff: T.Instant)
    requires Sound(g)
    ensures var s, m := SplitNowQuery(g, q, cutoff), Recognise(g, q);
      if m.Some? && Splits(g, m.value.0, m.value.2, cutoff) then
        var (form, pre, c) := m.value;
        s == Some(Build(q, Matched(q, pre, c), StartFor(g, form, c, cutoff), CutoffExpr(cutoff), c.stop))
      else s.None?
  {
    hide Find, Sound, MatchCall, ParseTime, Build, Matched, CutoffExpr, Trim, CachedStart;
    var m := Recognise(g, q);
    if m.Some? {
      var (form, pre, c) := m.value;
      StopAsEmitted(g, form, q, pre, c);
      BuildTrims(q, Matched(q, pre, c), c.start, CutoffExpr(cutoff), c.stop);
    }
  }

  lemma StopAsEmitted(g: Grammar, form: Form, q: string, pre: string, c: Call)
    requires Sound(g) && Find(g, form, q) == Some((pre, c))
    ensures Trim(c.stop) == c.stop
    ensures form.NowStop? ==> c.stop == "now()"
    ensures form.VarStop? ==> c.stop == "v.timeRangeStop"
  {
    hide Find, Sound, MatchCall, Trim;
    FoundMatches(g, form, q);
    StopIsTight(g, form, q[|pre|..], c);
    TrimOfTight(c.stop);
    StopWord(g, form, q[|pre|..], c);
  }

  /** The two queries in terms of the chosen start. */
  lemma SplitByStart(g: Grammar, q: string, cutoff: T.Instant)
    requires Sound(g)
    ensures var s, m := SplitNowQuery(g, q, cutoff), Recognise(g, q);
      && (s.Some? <==> m.Some? && Splits(g, m.value.0, m.value.2, cutoff))
      && (s.Some? ==>
            var (form, pre, c) := m.value;
            && q == pre + Matched(q, pre, c) + c.rest
            && s.value.0 == pre + RangeText(StartFor(g, form, c, cutoff), CutoffExpr(cutoff)) + c.rest
            && s.value.1 == pre + RangeText(CutoffExpr(cutoff), c.stop) + c.rest)
  {
    hide Find, Sound, MatchCall, ParseTime, Build, Matched, CutoffExpr, Trim, CachedStart, RangeText, SplitNowQuery, Recognise, StartFor, Splits, Tight;
    SplitBuilds(g, q, cutoff);
    var m := Recognise(g, q);
    if m.Some? && Splits(g, m.value.0, m.value.2, cutoff) {
      var (form, pre, c) := m.value;
      StartTight(g, form, c, cutoff);
      ReplaceHitsMatch(g, form, q, pre, c, "");
      BuildHits(g, form, q, pre, c, StartFor(g, form, c, cutoff), CutoffExpr(cutoff), c.stop);
    }
  }

  /**
    The recognised call is the leftmost match of the first form that matches anywhere: now()
    before v.timeRangeStop before an absolute stop.
  */
  lemma RecognisedFirst(g: Grammar, q: string)
    ensures var m := Recognise(g, q);
      && (m.None? ==> forall k: nat :: k <= |q| ==>
            MatchCall(g, NowStop, q[k..]).None? && MatchCall(g, VarStop, q[k..]).None? && MatchCall(g, AbsStop, q[k..]).None?)
      && (m.Some? ==>
            var (form, pre, c) := m.value;
            && pre <= q && MatchCall(g, form, q[|pre|..]) == Some(c)
            && (forall k: nat :: k < |pre| ==> MatchCall(g, form, q[k..]).None?)
            && (!form.NowStop? ==> forall k: nat :: k <= |q| ==> MatchCall(g, NowStop, q[k..]).None?)
            && (form.AbsStop? ==> forall k: nat :: k <= |q| ==> MatchCall(g, VarStop, q[k..]).None?))
  {
    hide Find, MatchCall;
    FindIsLeftmost(g, NowStop, q);
    FindIsLeftmost(g, VarStop, q);
    FindIsLeftmost(g, AbsStop, q);
  }

  /**
    A query is split exactly when a call is recognised and, for an absolute stop, that stop
    parses and lies after the cutoff. Then both queries are the original text with the call,
    and nothing else, replaced. The cached one ends at the cutoff, the live one begins there
    and keeps the stop. The cached one keeps the start, unless the stop is absolute and the
    start an instant before it: then it begins as long before the cutoff as the range is long.
  */
  lemma SplitShape(g: Grammar, q: string, cutoff: T.Instant)
    requires Sound(g)
    ensures var s, m := SplitNowQuery(g, q, cutoff), Recognise(g, q);
      && (s.Some? <==> m.Some? && (m.value.0.AbsStop? ==> ParseTime(g, m.value.2.stop).Some? && cutoff < ParseTime(g, m.value.2.stop).value))
      && (s.Some? ==>
            var (form, pre, c) := m.value;
            var from, to := ParseTime(g, Trim(c.start)), ParseTime(g, c.stop);
            var start :=
              if form.AbsStop? && from.Some? && from.value < to.value then
                var d := to.value - from.value;
                "time(v: \"" + T.Format(cutoff - (if d > 0x7FFF_FFFF_FFFF_FFFF then 0x7FFF_FFFF_FFFF_FFFF else d)) + "\")"
              else Trim(c.start);
            && q == pre + Matched(q, pre, c) + c.rest
            && s.value.0 == pre + ("range(start: " + start + ", stop: " + ("time(v: \"" + T.Format(cutoff) + "\")") + ")") + c.rest
            && s.value.1 == pre + ("range(start: " + ("time(v: \"" + T.Format(cutoff) + "\")") + ", stop: " + c.stop + ")") + c.rest)
  {
    hide Find, Sound, MatchCall, ParseTime, Matched, Trim, SplitNowQuery, Recognise, T.Format;
    SplitByStart(g, q, cutoff);
  }

  lemma BuildTrims(q: string, m: string, start: string, a: string, b: string)
    ensures Build(q, m, start, a, b) == Build(q, m, Trim(start), a, b)
  {
    TrimOfTight(Trim(start));
  }

  lemma StopWord(g: Grammar, form: Form, q: string, c: Call)
    requires MatchCall(g, form, q) == Some(c)
    ensures form.NowStop? ==> c.stop == "now()"
    ensures form.VarStop? ==> c.stop == "v.timeRangeStop"
  {
    hide Eat, AbsEnd, Cut;
  }

  lemma StartTight(g: Grammar, form: Form, c: Call, cutoff: T.Instant)
    requires Splits(g, form, c, cutoff)
    ensures Tight(StartFor(g, form, c, cutoff))
  {
    hide ParseTime, CutoffExpr, IsSpace;
    if form.AbsStop? {
      var s := ParseTime(g, Trim(c.start));
      if s.Some? {
        CutoffExprTight(cutoff - Sub(ParseTime(g, c.stop).value, s.value));
      }
    }
  }
}
