/**
  Laws of the rewrite of internal/flux/split.go: what it emits is recognised again, splitting
  a second time changes nothing, and the cached query of an absolute range depends only on
  the cutoff and the length of the range.
*/
module SplitLaws {
  import opened Text
  import opened Patterns
  import opened RangeCall
  import opened FluxSplit
  import Modular
  import T = Rfc3339

  // ---------- what the rewrite emits, read by the patterns ----------

  lemma EatWord(w: string, gap: string, q: Pat, y: string)
    requires AllIn(Space, gap) && (y == "" || !In(Space, y[0]))
    ensures Eat(Word(w, q), w + gap + y) == Eat(q, y)
  {
    EatStep(Word(w, q), w, gap + y);
    EatStep(Star(Space, q), gap, y);
    Assoc(w, gap, y);
  }

  lemma EatLast(w: string, y: string)
    ensures Eat(Lit(w, End), w + y) == Some(y)
  {
    EatStep(Lit(w, End), w, y);
  }

  lemma OpenEmitted(y: string)
    ensures Eat(Gateway().open, "range(start:" + y) == Some(y)
  {
    hide Eat;
    var p3 := Lit(":", End);
    var p2 := Word("start", p3);
    var p1 := Word("(", p2);
    EatLast(":", y);
    EatWord("start", "", p3, ":" + y);
    EatWord("(", "", p2, "start" + "" + (":" + y));
    EatWord("range", "", p1, "(" + "" + ("start" + "" + (":" + y)));
    assert "range(start:" + y == "range" + "" + ("(" + "" + ("start" + "" + (":" + y)));
  }

  lemma HeadEmitted(q: Pat, y: string)
    requires y != "" && !In(Space, y[0])
    ensures Eat(StopHead(q), ", stop: " + y) == Eat(q, y)
  {
    hide Eat;
    EatWord(":", " ", q, y);
    EatWord("stop", "", Word(":", q), ":" + " " + y);
    EatWord(",", " ", Word("stop", Word(":", q)), "stop" + "" + (":" + " " + y));
    assert ", stop: " + y == "," + " " + ("stop" + "" + (":" + " " + y));
  }

  /** The range text, matched: the capture is the start with the blank before it. */
  lemma EmittedCall(form: Form, start: string, stop: string, r: string)
    requires ',' !in start
    ensures var t := MatchStop(Gateway(), form, ", stop: " + (stop + ")" + r));
            MatchCall(Gateway(), form, RangeText(start, stop) + r) ==
            if t.None? then None else Some(Call(" " + start, t.value.0, t.value.1))
  {
    hide MatchStop, Eat;
    var u := ", stop: " + (stop + ")" + r);
    var y := " " + start + u;
    assert RangeText(start, stop) + r == "range(start:" + y;
    OpenEmitted(y);
    BeforeStops(" " + start, ',', u);
    assert y[|" " + start|..] == u;
  }

  lemma NowRegrouped(r: string)
    ensures "now()" + ")" + r == "now" + "" + ("(" + "" + (")" + "" + (")" + r)))
    ensures ("now()" + ")" + r)[0] == 'n'
  {
  }

  lemma NowEmitted(r: string)
    ensures MatchStop(Gateway(), NowStop, ", stop: " + ("now()" + ")" + r)) == Some(("now()", r))
  {
    hide Eat;
    var p3 := Lit(")", End);
    var p2 := Word(")", p3);
    var p1 := Word("(", p2);
    EatLast(")", r);
    EatWord(")", "", p3, ")" + r);
    EatWord("(", "", p2, ")" + "" + (")" + r));
    EatWord("now", "", p1, "(" + "" + (")" + "" + (")" + r)));
    NowRegrouped(r);
    HeadEmitted(Word("now", p1), "now()" + ")" + r);
  }

  lemma VarEmitted(r: string)
    ensures MatchStop(Gateway(), VarStop, ", stop: " + ("v.timeRangeStop" + ")" + r)) == Some(("v.timeRangeStop", r))
  {
    hide Eat;
    EatLast(")", r);
    EatWord("v.timeRangeStop", "", Lit(")", End), ")" + r);
    assert "v.timeRangeStop" + ")" + r == "v.timeRangeStop" + "" + (")" + r);
    HeadEmitted(Word("v.timeRangeStop", Lit(")", End)), "v.timeRangeStop" + ")" + r);
  }

  /** Only a stop that begins with the right word is read as now() or v.timeRangeStop. */
  lemma OtherStop(y: string)
    requires y != "" && !In(Space, y[0])
    ensures y[0] != 'n' ==> MatchStop(Gateway(), NowStop, ", stop: " + y).None?
    ensures y[0] != 'v' ==> MatchStop(Gateway(), VarStop, ", stop: " + y).None?
  {
    HeadEmitted(Word("now", Word("(", Word(")", Lit(")", End)))), y);
    HeadEmitted(Word("v.timeRangeStop", Lit(")", End)), y);
  }

  lemma EndSpelled()
    ensures Spells(End, "")
  {
  }

  lemma HeadSpelled()
    ensures Spells(Gateway().head, ", stop: ")
  {
    hide Spells;
    EndSpelled();
    SpellsWord(":", " ", End, "");
    SpellsWord("stop", "", Word(":", End), ":" + " " + "");
    SpellsWord(",", " ", Word("stop", Word(":", End)), "stop" + "" + (":" + " " + ""));
    assert ", stop: " == "," + " " + ("stop" + "" + (":" + " " + ""));
  }

  lemma AbsEmitted(stop: string, r: string)
    requires AbsText(Gateway(), stop + ")") && Tight(stop)
    ensures MatchStop(Gateway(), AbsStop, ", stop: " + (stop + ")" + r)) == Some((stop, r))
  {
    hide Eat, Spells, AbsText, MatchStop, Gateway;
    GatewaySound();
    HeadSpelled();
    TrimOfTight(stop);
    var x := stop + ")";
    assert x[..|x| - 1] == stop;
    AbsStopFound(Gateway(), ", stop: " + x, ", stop: ", x, stop, r);
    Assoc(", stop: ", x, r);
  }

  lemma TimeSpelled()
    ensures Spells(Gateway().time, "time(v: ")
  {
    hide Spells;
    EndSpelled();
    SpellsWord(":", " ", End, "");
    SpellsWord("v", "", Word(":", End), ":" + " " + "");
    SpellsWord("(", "", Word("v", Word(":", End)), "v" + "" + (":" + " " + ""));
    SpellsWord("time", "", Word("(", Word("v", Word(":", End))), "(" + "" + ("v" + "" + (":" + " " + "")));
    assert "time(v: " == "time" + "" + ("(" + "" + ("v" + "" + (":" + " " + "")));
  }

  lemma CloseSpelled()
    ensures Spells(Gateway().dqClose, "\"))") && Spells(Gateway().dqArg, "\")")
  {
    SpellsLast(")");
    SpellsWord(")", "", Lit(")", End), ")");
    SpellsWord("\"", "", Word(")", Lit(")", End)), ")" + "" + ")");
    assert "\"))" == "\"" + "" + (")" + "" + ")");
    SpellsWord("\"", "", Lit(")", End), ")");
    assert "\")" == "\"" + "" + ")";
  }

  lemma CutoffIsAbs(t: T.Instant)
    ensures AbsText(Gateway(), CutoffExpr(t) + ")")
  {
    hide Spells, Gateway, T.Format;
    TimeSpelled();
    CloseSpelled();
    T.FormatIsStamp(t);
    var f := T.Format(t);
    assert CutoffExpr(t) + ")" == "time(v: " + (['"'] + (f + "\"))"));
    AbsOfQuoted(Gateway(), CutoffExpr(t) + ")", "time(v: ", '"', f, "\"))");
  }

  /** cutoffExpr and parseFluxTimeExpr are inverse: the same instant comes back. */
  lemma ParseOfCutoff(t: T.Instant)
    requires T.Representable(t)
    ensures ParseTime(Gateway(), CutoffExpr(t)) == Some(t)
  {
    hide Spells, Eat, Gateway, T.Format, T.Representable, T.Parse, EatRun;
    CutoffExprTight(t);
    TrimOfTight(CutoffExpr(t));
    T.FormatIsStamp(t);
    TimeArgOfQuoted(T.Format(t));
    assert CutoffExpr(t) == "time(v: " + ("\"" + (T.Format(t) + "\")"));
    T.ParseOfFormat(t);
  }

  lemma TimeArgOfQuoted(f: string)
    requires f != "" && '"' !in f
    ensures TimeArg(Gateway(), "time(v: " + ("\"" + (f + "\")"))) == Some(f)
  {
    hide Spells, Eat, EatRun, Gateway;
    var g := Gateway();
    var w := "\"" + (f + "\")");
    TimeSpelled();
    CloseSpelled();
    TimeReady(w);
    EatComplete(g.time, "time(v: ", w);
    ArgReady();
    RunFound('"', g.dqArg, f, "\")", "");
    assert "\")" + "" == "\")";
    assert w[1..] == f + ("\")" + "");
  }

  lemma ArgReady()
    ensures Determined(Gateway().dqArg, "")
  {
    ReadyLast(")", "");
    ReadyWord("\"", Lit(")", End), "");
  }

  /** Recognised again: what the rewrite writes for each form of stop. */
  lemma EmittedNow(start: string, r: string)
    requires ',' !in start
    ensures MatchCall(Gateway(), NowStop, RangeText(start, "now()") + r) == Some(Call(" " + start, "now()", r))
  {
    hide MatchCall, MatchStop, Gateway;
    EmittedCall(NowStop, start, "now()", r);
    NowEmitted(r);
  }

  lemma EmittedVar(start: string, r: string)
    requires ',' !in start
    ensures MatchCall(Gateway(), VarStop, RangeText(start, "v.timeRangeStop") + r) == Some(Call(" " + start, "v.timeRangeStop", r))
    ensures MatchCall(Gateway(), NowStop, RangeText(start, "v.timeRangeStop") + r).None?
  {
    hide MatchCall, MatchStop, Gateway;
    EmittedCall(VarStop, start, "v.timeRangeStop", r);
    VarEmitted(r);
    EmittedCall(NowStop, start, "v.timeRangeStop", r);
    OtherStop("v.timeRangeStop" + ")" + r);
  }

  lemma EmittedAbs(start: string, stop: string, r: string)
    requires ',' !in start && AbsText(Gateway(), stop + ")") && stop != "" && Tight(stop)
    ensures MatchCall(Gateway(), AbsStop, RangeText(start, stop) + r) == Some(Call(" " + start, stop, r))
    ensures MatchCall(Gateway(), NowStop, RangeText(start, stop) + r).None?
    ensures MatchCall(Gateway(), VarStop, RangeText(start, stop) + r).None?
  {
    hide MatchCall, MatchStop, Gateway, AbsText;
    EmittedCall(AbsStop, start, stop, r);
    AbsEmitted(stop, r);
    EmittedCall(NowStop, start, stop, r);
    EmittedCall(VarStop, start, stop, r);
    AbsFirst(stop);
    OtherStop(stop + ")" + r);
  }

  lemma AbsFirst(stop: string)
    requires AbsText(Gateway(), stop + ")") && stop != ""
    ensures !In(Space, stop[0]) && stop[0] != 'n' && stop[0] != 'v'
  {
    hide Gateway, Spells;
    GatewaySound();
    var g, x := Gateway(), stop + ")";
    assert x[0] == stop[0];
    if Spells(g.bare, x) {
    } else {
      var o, d, body, z :| QuotedParts(g, x, o, d, body, z);
      assert "time" <= o;
      assert x[0] == 't';
    }
  }

  // ---------- where a range call opens ----------

  /** m is the opening of a range call, up to the colon behind start, and occurs in s at k. */
  ghost predicate OpensWith(s: string, k: nat, m: string) {
    OccursAt(s, m, k) && Spells(Gateway().open, m)
  }

  ghost predicate NoOpening(s: string) {
    forall k: nat, m :: !OpensWith(s, k, m)
  }

  /** A range call opens in q at position i only. */
  ghost predicate OnlyOpening(q: string, i: nat) {
    forall k: nat, m :: OpensWith(q, k, m) ==> k == i
  }

  ghost predicate PartOf(e: string, s: string) {
    exists k: nat :: OccursAt(s, e, k)
  }

  lemma OpeningParts(m: string) returns (x: string, y: string, z: string)
    requires Spells(Gateway().open, m)
    ensures m == "range" + x + "(" + y + "start" + z + ":"
    ensures AllIn(Space, x) && AllIn(Space, y) && AllIn(Space, z)
  {
    hide Spells;
    var p3 := Lit(":", End);
    var p2 := Word("start", p3);
    var p1 := Word("(", p2);
    var m1, m2, m3;
    x, m1 := AfterWord("range", p1, m);
    y, m2 := AfterWord("(", p2, m1);
    z, m3 := AfterWord("start", p3, m2);
    LastWord(":", m3);
  }

  lemma AfterWord(w: string, q: Pat, m: string) returns (gap: string, y: string)
    requires Spells(Word(w, q), m)
    ensures m == w + gap + y && AllIn(Space, gap) && Spells(q, y)
  {
    hide Spells;
    var a, n := FrontOf(Word(w, q), m);
    gap, y := FrontOf(Star(Space, q), n);
    Assoc(w, gap, y);
  }

  lemma LastWord(w: string, m: string)
    requires Spells(Lit(w, End), m)
    ensures m == w
  {
    assert m[|w|..] == "";
  }

  predicate OpeningChar(c: char) {
    In(Space, c) || c == '(' || c == ':' || c == 'r' || c == 'a' || c == 'n' || c == 'g' || c == 'e' || c == 's' || c == 't'
  }

  /** What openings look like: how they begin, what they are made of, and that the second r is followed by t. */
  lemma OpeningLooks(m: string)
    requires Spells(Gateway().open, m)
    ensures "range" <= m && |m| > 11
    ensures forall i :: 0 <= i < |m| ==> OpeningChar(m[i])
    ensures forall i :: 0 < i < |m| && m[i] == 'r' ==> i + 1 < |m| && m[i + 1] == 't'
  {
    hide Spells;
    var x, y, z := OpeningParts(m);
    var a, b := "range" + x + "(" + y, "start" + z + ":";
    assert m == a + b;
    assert forall i :: 0 <= i < |a| ==> OpeningChar(a[i]) && (i > 0 ==> a[i] != 'r');
    assert forall i :: 0 <= i < |b| ==> OpeningChar(b[i]) && (b[i] == 'r' ==> i == 3);
    assert b[4] == 't';
  }

  lemma OccursIn(s: string, m: string, k: nat, i: nat)
    requires OccursAt(s, m, k) && i < |m|
    ensures s[k + i] == m[i]
  {
    assert s[k..k + |m|][i] == m[i];
  }

  lemma PartHasNoOpening(e: string, s: string)
    requires NoOpening(s) && PartOf(e, s)
    ensures NoOpening(e)
  {
    hide Gateway, Spells, NoOpening;
    var i: nat :| OccursAt(s, e, i);
    NoneInPart(e, s, i);
  }

  lemma OccursWithin(s: string, e: string, i: nat, m: string, k: nat)
    requires OccursAt(s, e, i) && OccursAt(e, m, k)
    ensures OccursAt(s, m, i + k)
  {
    forall j | 0 <= j < |m| ensures s[i + k + j] == m[j] {
      OccursIn(e, m, k, j);
      OccursIn(s, e, i, k + j);
    }
    assert s[i + k..i + k + |m|] == m;
  }

  lemma NoneInPart(e: string, s: string, i: nat)
    requires NoOpening(s) && OccursAt(s, e, i)
    ensures NoOpening(e)
  {
    hide Gateway, Spells, OccursAt;
    forall k: nat, m ensures !OpensWith(e, k, m) {
      if OpensWith(e, k, m) {
        OccursWithin(s, e, i, m, k);
        Never(s, i + k, m);
      }
    }
  }

  /** An opening does not cross a character that openings do not have. */
  lemma NotAcross(a: string, x: char, b: string, k: nat, m: string)
    requires !OpeningChar(x) && OpensWith(a + [x] + b, k, m)
    ensures OpensWith(a, k, m) || (k > |a| && OpensWith(b, k - |a| - 1, m))
  {
    hide Gateway, Spells;
    var s := a + [x] + b;
    OpeningLooks(m);
    if k + |m| <= |a| {
      assert a[k..k + |m|] == s[k..k + |m|];
    } else if k > |a| {
      assert b[k - |a| - 1..k - |a| - 1 + |m|] == s[k..k + |m|];
    } else {
      OccursIn(s, m, k, |a| - k);
    }
  }

  /** The front of an emitted call opens at its beginning and nowhere else before the start. */
  lemma OnlyInFront(start: string, k: nat, m: string)
    requires NoOpening(start) && OpensWith("range(start: " + start, k, m)
    ensures k == 0
  {
    hide Gateway, Spells, NoOpening;
    var h := "range(start: ";
    var s := h + start;
    OpeningLooks(m);
    OccursIn(s, m, k, 0);
    OccursIn(s, m, k, 1);
    if k >= |h| {
      assert start[k - |h|..k - |h| + |m|] == s[k..k + |m|];
      Never(start, k - |h|, m);
    } else {
      assert s[k] == h[k] == 'r';
      assert k == 0 || k == 9;
      assert s[10] == 't';
    }
  }

  /** Nor does it open before the stop. */
  lemma NotBeforeStop(stop: string, k: nat, m: string)
    requires NoOpening(stop)
    ensures !OpensWith(" stop: " + stop, k, m)
  {
    hide Gateway, Spells, NoOpening;
    var h := " stop: ";
    var s := h + stop;
    if OpensWith(s, k, m) {
      OpeningLooks(m);
      OccursIn(s, m, k, 0);
      assert forall i :: 0 <= i < |h| ==> s[i] == h[i] != 'r';
      assert k >= |h|;
      assert stop[k - |h|..k - |h| + |m|] == s[k..k + |m|];
      Never(stop, k - |h|, m);
    }
  }

  lemma Never(s: string, k: nat, m: string)
    requires NoOpening(s)
    ensures !OpensWith(s, k, m)
  {
    hide OpensWith;
  }

  /** A rewritten call opens at its front only. */
  lemma RangeTextOnce(start: string, stop: string, rest: string, k: nat, m: string)
    requires NoOpening(start) && NoOpening(stop) && NoOpening(rest)
    requires OpensWith(RangeText(start, stop) + rest, k, m)
    ensures k == 0
  {
    hide NoOpening, OpensWith;
    var a, b := "range(start: " + start, " stop: " + stop;
    var c := b + [')'] + rest;
    assert RangeText(start, stop) + rest == a + [','] + c;
    NotAcross(a, ',', c, k, m);
    if OpensWith(a, k, m) {
      OnlyInFront(start, k, m);
    } else {
      var j := k - |a| - 1;
      NotAcross(b, ')', rest, j, m);
      NotBeforeStop(stop, j, m);
      Never(rest, j - |b| - 1, m);
    }
  }

  lemma NoLetterNoOpening(s: string)
    requires 'r' !in s
    ensures NoOpening(s)
  {
    hide Gateway, Spells;
    forall k: nat, m ensures !OpensWith(s, k, m) {
      if OpensWith(s, k, m) {
        OpeningLooks(m);
        OccursIn(s, m, k, 0);
      }
    }
  }

  /** An opening that begins before a call does not reach into it. */
  lemma NotInto(pre: string, x: string, k: nat, m: string)
    requires "range" <= x && k < |pre| && OpensWith(pre + x, k, m)
    ensures k + |m| <= |pre|
  {
    hide Gateway, Spells;
    OpeningLooks(m);
    var j := |pre| - k;
    assert (pre + x)[|pre|] == x[0] == 'r' && (pre + x)[|pre| + 1] == x[1] == 'a';
    if j < |m| {
      OccursIn(pre + x, m, k, j);
      OccursIn(pre + x, m, k, j + 1);
    }
  }

  lemma SamePrefix(pre: string, x: string, y: string, k: nat, m: string)
    requires OpensWith(pre + x, k, m) && k + |m| <= |pre|
    ensures OpensWith(pre + y, k, m)
  {
    hide Gateway, Spells;
    assert (pre + x)[k..k + |m|] == pre[k..k + |m|] == (pre + y)[k..k + |m|];
  }

  lemma SameSuffix(pre: string, x: string, k: nat, m: string)
    ensures k >= |pre| && OpensWith(pre + x, k, m) ==> OpensWith(x, k - |pre|, m)
    ensures OpensWith(x, k, m) ==> OpensWith(pre + x, |pre| + k, m)
  {
    hide Gateway, Spells;
    if k >= |pre| && k + |m| <= |pre + x| {
      assert (pre + x)[k..k + |m|] == x[k - |pre|..k - |pre| + |m|];
    }
    if k + |m| <= |x| {
      assert (pre + x)[|pre| + k..|pre| + k + |m|] == x[k..k + |m|];
    }
  }

  /** Replacing the only call by a rewritten one leaves the opening at the same single place. */
  lemma StillOnce(pre: string, m: string, rest: string, start: string, stop: string)
    requires OnlyOpening(pre + m + rest, |pre|) && "range" <= m
    requires NoOpening(start) && NoOpening(stop)
    ensures OnlyOpening(pre + RangeText(start, stop) + rest, |pre|)
  {
    hide OpensWith, NoOpening;
    var x, y := m + rest, RangeText(start, stop) + rest;
    Assoc(pre, m, rest);
    Assoc(pre, RangeText(start, stop), rest);
    RestHasNone(pre, m, rest);
    forall k: nat, o | OpensWith(pre + y, k, o) ensures k == |pre| {
      if k < |pre| {
        NotInto(pre, y, k, o);
        SamePrefix(pre, y, x, k, o);
      } else {
        SameSuffix(pre, y, k, o);
        RangeTextOnce(start, stop, rest, k - |pre|, o);
      }
    }
  }

  lemma RestHasNone(pre: string, m: string, rest: string)
    requires OnlyOpening(pre + m + rest, |pre|) && m != ""
    ensures NoOpening(rest) && NoOpening(m[1..])
  {
    hide OpensWith, Gateway;
    var q := pre + m + rest;
    forall k: nat, o ensures !OpensWith(rest, k, o) {
      SameSuffix(pre + m, rest, k, o);
    }
    var t := m[1..] + rest;
    assert q == pre + [m[0]] + t;
    forall k: nat, o ensures !OpensWith(m[1..], k, o) {
      if OpensWith(m[1..], k, o) {
        InFront(m[1..], rest, k, o);
        SameSuffix(pre + [m[0]], t, k, o);
      }
    }
  }

  lemma InFront(s: string, rest: string, k: nat, o: string)
    requires OpensWith(s, k, o)
    ensures OpensWith(s + rest, k, o)
  {
    hide Gateway, Spells;
    assert (s + rest)[k..k + |o|] == s[k..k + |o|];
  }

  // ---------- splitting twice ----------

  lemma OpensHere(n: string, k: nat, m: string, r: string)
    requires k <= |n| && n[k..] == m + r && Spells(Gateway().open, m)
    ensures OpensWith(n, k, m)
  {
    hide Gateway, Spells;
    assert n[k..k + |m|] == n[k..][..|m|] == m;
  }

  lemma OnlyThere(form: Form, n: string, i: nat, k: nat)
    requires OnlyOpening(n, i) && k <= |n| && k != i
    ensures MatchCall(Gateway(), form, n[k..]).None?
  {
    hide MatchBounds, Gateway, Spells, Eat, OpensWith;
    var r := Eat(Gateway().open, n[k..]);
    if r.Some? {
      var m := EatSound(Gateway().open, n[k..], r.value);
      OpensHere(n, k, m, r.value);
    }
  }

  /** The only call of a query is the one that is found, if it matches at all. */
  lemma FoundThere(form: Form, pre: string, s: string)
    requires OnlyOpening(pre + s, |pre|)
    ensures var r := MatchCall(Gateway(), form, s);
            Find(Gateway(), form, pre + s) == if r.Some? then Some((pre, r.value)) else None
  {
    hide MatchCall, Gateway, Find, OnlyOpening;
    var n := pre + s;
    forall k: nat | k <= |n| && k != |pre| ensures MatchCall(Gateway(), form, n[k..]).None? {
      OnlyThere(form, n, |pre|, k);
    }
    var r := MatchCall(Gateway(), form, s);
    if r.Some? {
      FindFirst(Gateway(), form, pre, s, r.value);
    } else {
      assert n[|pre|..] == s;
      FindNothing(Gateway(), form, n);
    }
  }

  lemma PartOfMiddle(a: string, b: string, c: string)
    requires a != ""
    ensures PartOf(b, (a + b + c)[1..])
  {
    var s := (a + b + c)[1..];
    assert s[|a| - 1..|a| - 1 + |b|] == b;
    assert OccursAt(s, b, |a| - 1);
  }

  lemma TrimIsPart(s: string)
    ensures PartOf(Trim(s), s)
  {
    var i, j := TrimIsSlice(s);
    assert OccursAt(s, Trim(s), i);
  }

  lemma PartOfPart(a: string, b: string, c: string)
    requires PartOf(a, b) && PartOf(b, c)
    ensures PartOf(a, c)
  {
    var i: nat :| OccursAt(b, a, i);
    var j: nat :| OccursAt(c, b, j);
    forall k | 0 <= k < |a| ensures c[j + i + k] == a[k] {
      assert c[j..j + |b|][i + k] == b[i + k] && b[i..i + |a|][k] == a[k];
    }
    assert c[j + i..j + i + |a|] == a;
    assert OccursAt(c, a, j + i);
  }

  /** The start and an absolute stop are pieces of the matched text, behind its first letter. */
  lemma CallPieces(g: Grammar, form: Form, s: string, c: Call)
    requires Sound(g) && Closes(g) && MatchCall(g, form, s) == Some(c)
    ensures var m := s[..|s| - |c.rest|];
      && "range" <= m && ',' !in c.start && PartOf(c.start, m[1..])
      && (form.AbsStop? ==> PartOf(c.stop, m[1..]) && c.stop != "" && Tight(c.stop) && AbsText(g, c.stop + ")"))
  {
    hide Spells, MatchCall, PartOf;
    var h, t := CallSound(g, form, s, c);
    var m := h + c.start + t;
    assert s[..|s| - |c.rest|] == m;
    PartOfMiddle(h, c.start, t);
    if form.AbsStop? {
      var a, x :| AbsParts(g, t, a, x, c.stop);
      StopPiece(h + c.start, a, x);
      assert h + c.start + (a + x) == m;
      var e := AbsTight(g, x);
    }
  }

  lemma StopPiece(h: string, a: string, x: string)
    requires h != "" && x != ""
    ensures PartOf(Trim(x[..|x| - 1]), (h + (a + x))[1..])
  {
    hide PartOf, Trim;
    var y := x[..|x| - 1];
    assert h + (a + x) == (h + a) + y + [x[|x| - 1]];
    PartOfMiddle(h + a, y, [x[|x| - 1]]);
    TrimIsPart(y);
    PartOfPart(Trim(y), y, (h + (a + x))[1..]);
  }

  /** What a recognised call gives the rewrite to work with. */
  lemma RecognisedPieces(q: string, form: Form, pre: string, c: Call)
    requires Find(Gateway(), form, q) == Some((pre, c)) && OnlyOpening(q, |pre|)
    ensures var m := Matched(q, pre, c);
      && q == pre + m + c.rest && "range" <= m
      && ',' !in c.start && NoOpening(c.start)
      && (form.AbsStop? ==> NoOpening(c.stop) && c.stop != "" && Tight(c.stop) && AbsText(Gateway(), c.stop + ")"))
  {
    hide MatchCall, Gateway, Find, OnlyOpening, NoOpening, PartOf, AbsText;
    GatewaySound();
    GatewayCloses();
    FoundMatches(Gateway(), form, q);
    var s := q[|pre|..];
    CallPieces(Gateway(), form, s, c);
    ReplaceHitsMatch(Gateway(), form, q, pre, c, "");
    var m := Matched(q, pre, c);
    assert s[..|s| - |c.rest|] == m;
    RestHasNone(pre, m, c.rest);
    PartHasNoOpening(c.start, m[1..]);
    if form.AbsStop? {
      PartHasNoOpening(c.stop, m[1..]);
    }
  }

  lemma TrimKeeps(s: string)
    requires NoOpening(s) && ',' !in s
    ensures NoOpening(Trim(s)) && ',' !in Trim(s)
  {
    hide NoOpening;
    TrimIsPart(s);
    PartHasNoOpening(Trim(s), s);
    var i, j := TrimIsSlice(s);
  }

  lemma StartKeeps(form: Form, c: Call, cutoff: T.Instant)
    requires Splits(Gateway(), form, c, cutoff) && NoOpening(c.start) && ',' !in c.start
    ensures var s := StartFor(Gateway(), form, c, cutoff); NoOpening(s) && ',' !in s
  {
    hide ParseTime, NoOpening, CutoffExpr, Gateway, Trim;
    TrimKeeps(c.start);
    var p := ParseTime(Gateway(), Trim(c.start));
    if form.AbsStop? && p.Some? {
      var t := cutoff - Sub(ParseTime(Gateway(), c.stop).value, p.value);
      CutoffExprTight(t);
      NoLetterNoOpening(CutoffExpr(t));
    }
  }

  /** The rewritten calls in place: where they are, and that they are the only ones. */
  lemma Rewritten(q: string, cutoff: T.Instant, form: Form, pre: string, c: Call)
    requires Recognise(Gateway(), q) == Some((form, pre, c)) && OnlyOpening(q, |pre|) && Splits(Gateway(), form, c, cutoff)
    ensures var s, k := StartFor(Gateway(), form, c, cutoff), CutoffExpr(cutoff);
      && OnlyOpening(pre + RangeText(s, k) + c.rest, |pre|) && ',' !in s
      && OnlyOpening(pre + RangeText(k, c.stop) + c.rest, |pre|) && ',' !in k
  {
    hide MatchCall, Gateway, Find, OnlyOpening, NoOpening, AbsText, ParseTime, CutoffExpr, RangeText, Tight;
    RecognisedPieces(q, form, pre, c);
    StartKeeps(form, c, cutoff);
    CutoffExprTight(cutoff);
    NoLetterNoOpening(CutoffExpr(cutoff));
    StopKeeps(q, form, pre, c);
    var m := Matched(q, pre, c);
    StillOnce(pre, m, c.rest, StartFor(Gateway(), form, c, cutoff), CutoffExpr(cutoff));
    StillOnce(pre, m, c.rest, CutoffExpr(cutoff), c.stop);
  }

  lemma StopKeeps(q: string, form: Form, pre: string, c: Call)
    requires Find(Gateway(), form, q) == Some((pre, c)) && OnlyOpening(q, |pre|)
    ensures NoOpening(c.stop)
  {
    hide MatchCall, Gateway, Find, OnlyOpening, NoOpening, AbsText;
    RecognisedPieces(q, form, pre, c);
    FoundMatches(Gateway(), form, q);
    StopWord(Gateway(), form, q[|pre|..], c);
    if !form.AbsStop? {
      NoLetterNoOpening(c.stop);
    }
  }

  /** The cached query is recognised as an absolute range that ends at the cutoff. */
  lemma CachedRecognised(q: string, cutoff: T.Instant)
    requires SplitNowQuery(Gateway(), q, cutoff).Some? && OnlyOpening(q, |Recognise(Gateway(), q).value.1|)
    ensures var m := Recognise(Gateway(), SplitNowQuery(Gateway(), q, cutoff).value.0);
            m.Some? && m.value.0.AbsStop? && m.value.2.stop == CutoffExpr(cutoff)
  {
    hide MatchCall, Gateway, Find, OnlyOpening, NoOpening, AbsText, ParseTime, CutoffExpr, RangeText, SplitNowQuery, Recognise;
    GatewaySound();
    SplitByStart(Gateway(), q, cutoff);
    var (form, pre, c) := Recognise(Gateway(), q).value;
    Rewritten(q, cutoff, form, pre, c);
    var s, k := StartFor(Gateway(), form, c, cutoff), CutoffExpr(cutoff);
    var x := RangeText(s, k) + c.rest;
    Assoc(pre, RangeText(s, k), c.rest);
    CutoffIsAbs(cutoff);
    CutoffExprTight(cutoff);
    EmittedAbs(s, k, c.rest);
    FoundThere(NowStop, pre, x);
    FoundThere(VarStop, pre, x);
    FoundThere(AbsStop, pre, x);
    RecogniseByForms(pre + x);
  }

  /** Splitting the cached query again at the same cutoff is refused. */
  lemma CachedIsNotSplitAgain(q: string, cutoff: T.Instant)
    requires T.Representable(cutoff) && SplitNowQuery(Gateway(), q, cutoff).Some?
    requires OnlyOpening(q, |Recognise(Gateway(), q).value.1|)
    ensures SplitNowQuery(Gateway(), SplitNowQuery(Gateway(), q, cutoff).value.0, cutoff).None?
  {
    hide Gateway, Find, OnlyOpening, ParseTime, CutoffExpr, RangeText, SplitNowQuery, Recognise, T.Representable, Sound, StartFor, Matched;
    GatewaySound();
    CachedRecognised(q, cutoff);
    ParseOfCutoff(cutoff);
    SplitByStart(Gateway(), SplitNowQuery(Gateway(), q, cutoff).value.0, cutoff);
  }

  /** The cutoff a cached query spells. */
  function SpelledCutoff(text: string): Option<T.Instant> {
    var m := Recognise(Gateway(), text);
    if m.Some? && m.value.0.AbsStop? then ParseTime(Gateway(), m.value.2.stop) else None
  }

  /** The cached query spells the cutoff it was cut at. */
  lemma CachedSpellsCutoff(q: string, cutoff: T.Instant)
    requires T.Representable(cutoff) && SplitNowQuery(Gateway(), q, cutoff).Some?
    requires OnlyOpening(q, |Recognise(Gateway(), q).value.1|)
    ensures SpelledCutoff(SplitNowQuery(Gateway(), q, cutoff).value.0) == Some(cutoff)
  {
    hide Gateway, Find, OnlyOpening, ParseTime, CutoffExpr, RangeText, SplitNowQuery, Recognise, T.Representable;
    CachedRecognised(q, cutoff);
    ParseOfCutoff(cutoff);
  }

  lemma RecogniseByForms(q: string)
    ensures Find(Gateway(), NowStop, q).None? && Find(Gateway(), VarStop, q).None? ==>
      var a := Find(Gateway(), AbsStop, q);
      Recognise(Gateway(), q) == if a.Some? then Some((AbsStop, a.value.0, a.value.1)) else None
    ensures Find(Gateway(), NowStop, q).Some? ==>
      var a := Find(Gateway(), NowStop, q); Recognise(Gateway(), q) == Some((NowStop, a.value.0, a.value.1))
    ensures Find(Gateway(), NowStop, q).None? && Find(Gateway(), VarStop, q).Some? ==>
      var a := Find(Gateway(), VarStop, q); Recognise(Gateway(), q) == Some((VarStop, a.value.0, a.value.1))
  {
    hide Find, Gateway;
  }

  /** Splitting the live query again at the same cutoff returns the identical live query. */
  lemma LiveSplitsToItself(q: string, cutoff: T.Instant)
    requires SplitNowQuery(Gateway(), q, cutoff).Some?
    requires OnlyOpening(q, |Recognise(Gateway(), q).value.1|)
    ensures var live := SplitNowQuery(Gateway(), q, cutoff).value.1;
            var again := SplitNowQuery(Gateway(), live, cutoff);
            again.Some? && again.value.1 == live
  {
    hide MatchCall, Gateway, Find, OnlyOpening, NoOpening, AbsText, ParseTime, CutoffExpr, RangeText, SplitNowQuery, Recognise;
    GatewaySound();
    SplitByStart(Gateway(), q, cutoff);
    var (form, pre, c) := Recognise(Gateway(), q).value;
    Rewritten(q, cutoff, form, pre, c);
    RecognisedPieces(q, form, pre, c);
    FoundMatches(Gateway(), form, q);
    StopWord(Gateway(), form, q[|pre|..], c);
    var k := CutoffExpr(cutoff);
    var x := RangeText(k, c.stop) + c.rest;
    var lq := pre + RangeText(k, c.stop) + c.rest;
    Assoc(pre, RangeText(k, c.stop), c.rest);
    match form {
      case NowStop => EmittedNow(k, c.rest);
      case VarStop => EmittedVar(k, c.rest);
      case AbsStop => EmittedAbs(k, c.stop, c.rest);
    }
    FoundThere(NowStop, pre, x);
    FoundThere(VarStop, pre, x);
    FoundThere(AbsStop, pre, x);
    RecogniseByForms(lq);
    SplitByStart(Gateway(), lq, cutoff);
  }

  // ---------- absolute ranges ----------

  /** q has an absolute range from start to stop, recognised at pre with rest behind it. */
  predicate AbsoluteRange(q: string, pre: string, rest: string, start: T.Instant, stop: T.Instant) {
    var m := Recognise(Gateway(), q);
    && m.Some? && m.value.0.AbsStop? && m.value.1 == pre && m.value.2.rest == rest
    && ParseTime(Gateway(), Trim(m.value.2.start)) == Some(start)
    && ParseTime(Gateway(), m.value.2.stop) == Some(stop)
    && start < stop
  }

  /** The cached query of an absolute range, spelled out. */
  lemma CachedQueryOfRange(q: string, pre: string, rest: string, start: T.Instant, stop: T.Instant, cutoff: T.Instant)
    requires AbsoluteRange(q, pre, rest, start, stop) && cutoff < stop
    ensures SplitNowQuery(Gateway(), q, cutoff).Some?
    ensures SplitNowQuery(Gateway(), q, cutoff).value.0 ==
            pre + RangeText(CutoffExpr(cutoff - Sub(stop, start)), CutoffExpr(cutoff)) + rest
  {
    hide MatchCall, Gateway, Find, ParseTime, CutoffExpr, RangeText, SplitNowQuery, Recognise, Sound, CachedStart, Sub;
    GatewaySound();
    SplitByStart(Gateway(), q, cutoff);
    var m := Recognise(Gateway(), q).value;
    ShiftedStart(Gateway(), m.2.start, start, stop, cutoff);
  }

  lemma ShiftedStart(g: Grammar, text: string, start: T.Instant, stop: T.Instant, cutoff: T.Instant)
    requires ParseTime(g, Trim(text)) == Some(start) && start < stop
    ensures CachedStart(g, text, stop, cutoff) == CutoffExpr(cutoff - Sub(stop, start))
  {
    hide ParseTime, CutoffExpr;
  }

  lemma MiddleInjective(pre: string, x: string, y: string, rest: string)
    requires pre + x + rest == pre + y + rest
    ensures x == y
  {
    var s, t := pre + x + rest, pre + y + rest;
    assert |x| == |y|;
    assert x == s[|pre|..|pre| + |x|];
    assert y == t[|pre|..|pre| + |y|];
  }

  lemma CancelFront(p: string, x: string, y: string)
    requires p + x == p + y
    ensures x == y
  {
    assert x == (p + x)[|p|..] && y == (p + y)[|p|..];
  }

  lemma CancelBack(x: string, y: string, p: string)
    requires x + p == y + p
    ensures x == y
  {
    assert x == (x + p)[..|x + p| - |p|] && y == (y + p)[..|y + p| - |p|];
  }

  lemma RangeTextGrouped(a: string, b: string)
    ensures RangeText(a, b) == "range(start: " + (a + (", stop: " + (b + ")")))
  {
  }

  lemma RangeTextInjective(a: string, b: string, c: string, d: string)
    requires RangeText(a, b) == RangeText(c, d) && ',' !in a && ',' !in c
    ensures a == c && b == d
  {
    hide RangeText, Before;
    RangeTextGrouped(a, b);
    RangeTextGrouped(c, d);
    var u, v := ", stop: " + (b + ")"), ", stop: " + (d + ")");
    CancelFront("range(start: ", a + u, c + v);
    BeforeStops(a, ',', u);
    BeforeStops(c, ',', v);
    CancelFront(a, u, v);
    CancelFront(", stop: ", b + ")", d + ")");
    CancelBack(b, d, ")");
  }

  lemma CutoffExprInjective(t: T.Instant, u: T.Instant)
    requires T.Representable(t) && T.Representable(u) && CutoffExpr(t) == CutoffExpr(u)
    ensures t == u
  {
    hide CutoffExpr, ParseTime, Gateway, T.Representable;
    ParseOfCutoff(t);
    ParseOfCutoff(u);
  }

  /**
    The cached query is canonical: two absolute ranges in the same surrounding text give the
    same cached query exactly when cutoff and length agree, wherever the ranges lie.
  */
  lemma CachedQueryCanonical(pre: string, rest: string,
                             q: string, start: T.Instant, stop: T.Instant, cutoff: T.Instant,
                             q': string, start': T.Instant, stop': T.Instant, cutoff': T.Instant)
    requires AbsoluteRange(q, pre, rest, start, stop) && cutoff < stop
    requires AbsoluteRange(q', pre, rest, start', stop') && cutoff' < stop'
    requires T.Representable(cutoff) && T.Representable(cutoff - Sub(stop, start))
    requires T.Representable(cutoff') && T.Representable(cutoff' - Sub(stop', start'))
    ensures SplitNowQuery(Gateway(), q, cutoff).Some? && SplitNowQuery(Gateway(), q', cutoff').Some?
    ensures SplitNowQuery(Gateway(), q, cutoff).value.0 == SplitNowQuery(Gateway(), q', cutoff').value.0 <==>
            cutoff == cutoff' && Sub(stop, start) == Sub(stop', start')
  {
    hide AbsoluteRange, SplitNowQuery, Gateway, CutoffExpr, RangeText, T.Representable;
    CachedQueryOfRange(q, pre, rest, start, stop, cutoff);
    CachedQueryOfRange(q', pre, rest, start', stop', cutoff');
    var a, b := CutoffExpr(cutoff - Sub(stop, start)), CutoffExpr(cutoff);
    var a', b' := CutoffExpr(cutoff' - Sub(stop', start')), CutoffExpr(cutoff');
    if pre + RangeText(a, b) + rest == pre + RangeText(a', b') + rest {
      MiddleInjective(pre, RangeText(a, b), RangeText(a', b'), rest);
      CutoffExprTight(cutoff - Sub(stop, start));
      CutoffExprTight(cutoff' - Sub(stop', start'));
      RangeTextInjective(a, b, a', b');
      CutoffExprInjective(cutoff, cutoff');
      CutoffExprInjective(cutoff - Sub(stop, start), cutoff' - Sub(stop', start'));
    }
  }

  predicate Inside(t: T.Instant, lo: T.Instant, hi: T.Instant) { lo <= t < hi }

  /**
    The two ranges of a split absolute range: they meet at the cutoff, they never overlap, and
    together they run from cutoff - length to the stop, which is stop - cutoff more than was
    asked for, at the front. Nothing of the original range is lost exactly when its length
    fits a Duration, 2^63 - 1 ns, or the clamped length still reaches back to the start.
  */
  lemma AbsoluteSplitRanges(start: T.Instant, stop: T.Instant, cutoff: T.Instant)
    requires start < stop && cutoff < stop
    ensures var lo := cutoff - Sub(stop, start);
      && (forall t :: !(Inside(t, lo, cutoff) && Inside(t, cutoff, stop)))
      && (forall t :: Inside(t, lo, cutoff) || Inside(t, cutoff, stop) <==> Inside(t, lo, stop))
      && ((forall t :: Inside(t, start, stop) ==> Inside(t, lo, stop)) <==>
          stop - start <= 0x7FFF_FFFF_FFFF_FFFF || cutoff - 0x7FFF_FFFF_FFFF_FFFF <= start)
      && (stop - start <= 0x7FFF_FFFF_FFFF_FFFF ==> start - lo == stop - cutoff)
  {
    var lo := cutoff - Sub(stop, start);
    if !(stop - start <= 0x7FFF_FFFF_FFFF_FFFF || cutoff - 0x7FFF_FFFF_FFFF_FFFF <= start) {
      assert Inside(start, start, stop) && !Inside(start, lo, stop);
    }
  }

  /** The overshoot is shorter than the freshness window when the range does not end in the future. */
  lemma OvershootBelowWindow(stop: T.Instant, now: T.Instant, window: int)
    requires window > 0 && stop <= now
    ensures stop - SplitCutoff(now, window) < window
  {
  }

  /** Requests in the same window share the cutoff; in the next window it is later by exactly one window. */
  lemma CutoffShared(now: T.Instant, now': T.Instant, window: int)
    requires window > 0 && now <= now'
    ensures var c, c' := SplitCutoff(now, window), SplitCutoff(now', window);
      && (c == c' <==> now' < c + window)
      && (c' == c + window <==> c + window <= now' < c + 2 * window)
  {
    var c, c' := SplitCutoff(now, window), SplitCutoff(now', window);
    if now' < c + window {
      Modular.SameMultiple(c, c', window);
    }
    if c + window <= now' < c + 2 * window {
      Modular.AddMultiple(c, window, 1);
      Modular.SameMultiple(c + window, c', window);
    }
  }
}
