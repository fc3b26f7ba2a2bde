/**
  How range calls and times are written: the texts that the patterns of internal/flux/split.go
  take, spelled out word by word, and the instants that parseFluxTimeExpr reads from them.
*/
module CallTexts {
  import opened Text
  import opened Patterns
  import opened RangeCall
  import opened FluxSplit
  import opened SplitLaws
  import opened StampTexts
  import T = Rfc3339

  // ---------- words and the white space between them ----------

  /** White space as \s has it: blanks, tabs, line ends and form feeds. */
  ghost predicate Blank(s: string) {
    forall i :: 0 <= i < |s| ==> s[i] == ' ' || s[i] == '\t' || s[i] == '\n' || s[i] == '\r' || s[i] == '\U{0C}'
  }

  ghost predicate Gaps(gaps: seq<string>, n: nat) {
    |gaps| == n && forall i :: 0 <= i < n ==> Blank(gaps[i])
  }

  /** The words, each with its gap behind it. */
  function Written(words: seq<string>, gaps: seq<string>): string
    requires |words| == |gaps|
  {
    if words == [] then "" else words[0] + gaps[0] + Written(words[1..], gaps[1..])
  }

  function WordsPat(words: seq<string>, q: Pat): Pat {
    if words == [] then q else Word(words[0], WordsPat(words[1..], q))
  }

  lemma BlankIsSpace(s: string)
    ensures Blank(s) <==> AllIn(Space, s)
  {
  }

  lemma {:induction false} WordsRead(words: seq<string>, q: Pat, m: string) returns (gaps: seq<string>, y: string)
    requires Spells(WordsPat(words, q), m)
    ensures Gaps(gaps, |words|) && m == Written(words, gaps) + y && Spells(q, y)
    decreases |words|
  {
    hide Spells, Blank;
    if words == [] {
      gaps, y := [], m;
    } else {
      var gap, n := AfterWord(words[0], WordsPat(words[1..], q), m);
      var rest;
      rest, y := WordsRead(words[1..], q, n);
      gaps := [gap] + rest;
      BlankIsSpace(gap);
      assert gaps[1..] == rest;
      Assoc(words[0] + gap, Written(words[1..], rest), y);
    }
  }

  lemma {:induction false} WordsSpell(words: seq<string>, q: Pat, gaps: seq<string>, y: string)
    requires Gaps(gaps, |words|) && Spells(q, y)
    ensures Spells(WordsPat(words, q), Written(words, gaps) + y)
    decreases |words|
  {
    hide Spells, Blank;
    if words == [] {
      assert "" + y == y;
    } else {
      assert forall i :: 0 <= i < |words| - 1 ==> gaps[1..][i] == gaps[i + 1];
      WordsSpell(words[1..], q, gaps[1..], y);
      BlankIsSpace(gaps[0]);
      SpellsWord(words[0], gaps[0], WordsPat(words[1..], q), Written(words[1..], gaps[1..]) + y);
      Assoc(words[0] + gaps[0], Written(words[1..], gaps[1..]), y);
    }
  }

  lemma OneWord(a: string, q: Pat)
    ensures WordsPat([a], q) == Word(a, q)
  {
    assert WordsPat([a][1..], q) == q;
  }

  lemma TwoWords(a: string, b: string, q: Pat)
    ensures WordsPat([a, b], q) == Word(a, Word(b, q))
  {
    OneWord(b, q);
    assert [a, b][1..] == [b];
  }

  lemma ThreeWords(a: string, b: string, c: string, q: Pat)
    ensures WordsPat([a, b, c], q) == Word(a, Word(b, Word(c, q)))
  {
    TwoWords(b, c, q);
    assert [a, b, c][1..] == [b, c];
  }

  lemma FourWords(a: string, b: string, c: string, d: string, q: Pat)
    ensures WordsPat([a, b, c, d], q) == Word(a, Word(b, Word(c, Word(d, q))))
  {
    ThreeWords(b, c, d, q);
    assert [a, b, c, d][1..] == [b, c, d];
  }

  // ---------- stop expressions ----------

  /** time(v: "...") or time(v: '...') with this argument. */
  ghost predicate TimeWritten(x: string, d: char, body: string, gaps: seq<string>, w: string) {
    && Gaps(gaps, 4) && Blank(w) && (d == '"' || d == '\'') && body != "" && d !in body
    && x == Written(["time", "(", "v", ":"], gaps) + ([d] + (body + ([d] + w + ")")))
  }

  predicate IsClock(c: char) { '0' <= c <= '9' || c == ':' || c == '.' || c == '+' || c == '-' }

  /** dddd-dd-ddT at position i, d a digit. */
  predicate DayAt(x: string, i: nat) {
    && i + 11 <= |x| && x[i + 4] == '-' && x[i + 7] == '-' && x[i + 10] == 'T'
    && '0' <= x[i] <= '9' && '0' <= x[i + 1] <= '9' && '0' <= x[i + 2] <= '9' && '0' <= x[i + 3] <= '9'
    && '0' <= x[i + 5] <= '9' && '0' <= x[i + 6] <= '9' && '0' <= x[i + 8] <= '9' && '0' <= x[i + 9] <= '9'
  }

  /** A bare timestamp: a day from position i on, a clock text up to position k, and Z; perhaps a double quote before, perhaps one behind. */
  predicate BareWritten(x: string, i: nat, k: nat) {
    && (i == 0 || (i == 1 && x != "" && x[0] == '"')) && DayAt(x, i)
    && i + 11 < k < |x| && (forall j :: i + 11 <= j < k ==> IsClock(x[j])) && x[k] == 'Z'
    && (|x| == k + 1 || (|x| == k + 2 && x[k + 1] == '"'))
  }

  ghost predicate NowWritten(x: string, gaps: seq<string>) {
    Gaps(gaps, 2) && x == Written(["now", "("], gaps) + ")"
  }

  ghost predicate StopWritten(form: Form, x: string) {
    match form
    case NowStop => exists gaps :: NowWritten(x, gaps)
    case VarStop => x == "v.timeRangeStop"
    case AbsStop => (exists d, body, gaps, w :: TimeWritten(x, d, body, gaps, w)) || exists i, k :: BareWritten(x, i, k)
  }

  /** s is a range call with capture c.start and stop expression x, followed by c.rest. */
  ghost predicate CallWrittenAs(form: Form, s: string, c: Call, g: seq<string>, h: seq<string>, x: string, w: string) {
    && Gaps(g, 3) && Gaps(h, 3) && Blank(w) && c.start != "" && ',' !in c.start && StopWritten(form, x)
    && s == Written(["range", "(", "start"], g) + ":" + c.start + (Written([",", "stop", ":"], h) + (x + (w + ")"))) + c.rest
    && c.stop == if form.NowStop? then "now()" else x
  }

  // ---------- matching at a position ----------

  ghost predicate At(p: Pat, m: string, i: nat) {
    i <= |m| && Spells(p, m[i..])
  }

  lemma OneAt(c: Class, q: Pat, m: string, i: nat)
    ensures At(One(c, q), m, i) <==> i < |m| && In(c, m[i]) && At(q, m, i + 1)
  {
    if i < |m| {
      assert m[i..][1..] == m[i + 1..];
    }
  }

  lemma LitAt(x: char, q: Pat, m: string, i: nat)
    ensures At(Lit([x], q), m, i) <==> i < |m| && m[i] == x && At(q, m, i + 1)
  {
    if i < |m| {
      assert m[i..][1..] == m[i + 1..];
      assert [x] <= m[i..] <==> m[i] == x;
    }
  }

  /** Only characters of the class from i up to k. */
  predicate RunOf(c: Class, m: string, i: nat, k: nat) {
    i <= k <= |m| && forall j :: i <= j < k ==> In(c, m[j])
  }

  lemma StarAt(c: Class, q: Pat, m: string, i: nat)
    ensures At(Star(c, q), m, i) <==> exists k: nat :: RunOf(c, m, i, k) && At(q, m, k)
  {
    hide In, RunOf;
    if At(Star(c, q), m, i) {
      var a, y := FrontOfStar(c, q, m[i..]);
      RunFront(c, m, i, a, y);
      assert At(q, m, i + |a|);
    }
    if k: nat :| RunOf(c, m, i, k) && At(q, m, k) {
      RunRange(c, m, i, k);
      SpellsStar(c, q, m[i..k], m[k..]);
      assert m[i..] == m[i..k] + m[k..];
    }
  }

  lemma RunFront(c: Class, m: string, i: nat, a: string, y: string)
    requires i <= |m| && m[i..] == a + y && AllIn(c, a)
    ensures RunOf(c, m, i, i + |a|) && m[i + |a|..] == y
  {
    hide In;
    assert forall j :: i <= j < i + |a| ==> m[j] == m[i..][j - i] == a[j - i];
    assert m[i + |a|..] == m[i..][|a|..];
  }

  lemma RunRange(c: Class, m: string, i: nat, k: nat)
    requires RunOf(c, m, i, k)
    ensures i <= k <= |m| && AllIn(c, m[i..k])
  {
    hide In;
  }

  lemma MaybeAt(c: Class, q: Pat, m: string, i: nat)
    ensures At(Maybe(c, q), m, i) <==> At(q, m, i) || (i < |m| && In(c, m[i]) && At(q, m, i + 1))
  {
    if i < |m| {
      assert m[i..][1..] == m[i + 1..];
    }
  }

  lemma EndAt(m: string, i: nat)
    ensures At(End, m, i) <==> i == |m|
  {
  }

  function DayPat(q: Pat): Pat {
    One(Digits, One(Digits, One(Digits, One(Digits, Lit("-",
      One(Digits, One(Digits, Lit("-", One(Digits, One(Digits, Lit("T", q)))))))))))
  }

  lemma DayIsAt(q: Pat, m: string, i: nat)
    ensures At(DayPat(q), m, i) <==> DayAt(m, i) && At(q, m, i + 11)
  {
    hide At;
    var t := Lit("T", q);
    var d := One(Digits, One(Digits, t));
    var b := Lit("-", d);
    var o := One(Digits, One(Digits, b));
    var a := Lit("-", o);
    OneAt(Digits, One(Digits, One(Digits, One(Digits, a))), m, i);
    OneAt(Digits, One(Digits, One(Digits, a)), m, i + 1);
    OneAt(Digits, One(Digits, a), m, i + 2);
    OneAt(Digits, a, m, i + 3);
    LitAt('-', o, m, i + 4);
    OneAt(Digits, One(Digits, b), m, i + 5);
    OneAt(Digits, b, m, i + 6);
    LitAt('-', d, m, i + 7);
    OneAt(Digits, One(Digits, t), m, i + 8);
    OneAt(Digits, t, m, i + 9);
    LitAt('T', q, m, i + 10);
  }

  /** The clock text from i up to k, and Z. */
  lemma ClockAt(q: Pat, m: string, i: nat, k: nat)
    requires i < k < |m| && (forall j :: i <= j < k ==> IsClock(m[j])) && m[k] == 'Z' && At(q, m, k + 1)
    ensures At(One(ClockRun, Star(ClockRun, Lit("Z", q))), m, i)
  {
    hide At;
    LitAt('Z', q, m, k);
    StarAt(ClockRun, Lit("Z", q), m, i + 1);
    assert RunOf(ClockRun, m, i + 1, k);
    OneAt(ClockRun, Star(ClockRun, Lit("Z", q)), m, i);
  }

  lemma ClockAtRead(q: Pat, m: string, i: nat) returns (k: nat)
    requires At(One(ClockRun, Star(ClockRun, Lit("Z", q))), m, i)
    ensures i < k < |m| && (forall j :: i <= j < k ==> IsClock(m[j])) && m[k] == 'Z' && At(q, m, k + 1)
  {
    hide At;
    OneAt(ClockRun, Star(ClockRun, Lit("Z", q)), m, i);
    StarAt(ClockRun, Lit("Z", q), m, i + 1);
    k :| RunOf(ClockRun, m, i + 1, k) && At(Lit("Z", q), m, k);
    LitAt('Z', q, m, k);
  }

  /** White space from e on, and the closing parenthesis at the end. */
  lemma CloseAt(m: string, e: nat)
    ensures At(Star(Space, Lit(")", End)), m, e) <==> e < |m| && Blank(m[e..|m| - 1]) && m[|m| - 1] == ')'
  {
    hide At;
    var q := Lit(")", End);
    StarAt(Space, q, m, e);
    forall k: nat ensures At(q, m, k) <==> k + 1 == |m| && m[k] == ')' {
      LitAt(')', End, m, k);
      EndAt(m, k + 1);
    }
    if e < |m| && Blank(m[e..|m| - 1]) && m[|m| - 1] == ')' {
      var w := m[e..|m| - 1];
      forall j | e <= j < |m| - 1 ensures In(Space, m[j]) {
        assert w[j - e] == m[j];
      }
      assert RunOf(Space, m, e, |m| - 1) && At(q, m, |m| - 1);
    }
  }

  lemma BarePat()
    ensures Gateway().bare == Maybe(Quote, DayPat(One(ClockRun, Star(ClockRun, Lit("Z", Maybe(Quote, Star(Space, Lit(")", End))))))))
  {
  }

  lemma WholeIsAt(p: Pat, m: string)
    ensures Spells(p, m) <==> At(p, m, 0)
  {
    assert m[0..] == m;
  }

  /** A bare stop of the pattern, white space and the parenthesis, taken apart. */
  lemma BareRead(m: string) returns (x: string, w: string, i: nat, k: nat)
    requires Spells(Gateway().bare, m)
    ensures m == x + (w + ")") && Blank(w) && BareWritten(x, i, k)
  {
    hide At, Spells, Gateway, DayPat;
    BarePat();
    var q := Star(Space, Lit(")", End));
    var z := Maybe(Quote, q);
    var r := One(ClockRun, Star(ClockRun, Lit("Z", z)));
    WholeIsAt(Gateway().bare, m);
    MaybeAt(Quote, DayPat(r), m, 0);
    i := if At(DayPat(r), m, 0) then 0 else 1;
    DayIsAt(r, m, i);
    k := ClockAtRead(z, m, i + 11);
    MaybeAt(Quote, q, m, k + 1);
    var e := if At(q, m, k + 1) then k + 1 else k + 2;
    CloseAt(m, e);
    x, w := m[..e], m[e..|m| - 1];
  }

  lemma BareSpell(x: string, i: nat, k: nat, w: string)
    requires BareWritten(x, i, k) && Blank(w)
    ensures Spells(Gateway().bare, x + (w + ")"))
  {
    hide At, Spells, Gateway, DayPat;
    BarePat();
    var m := x + (w + ")");
    assert forall j :: 0 <= j < |x| ==> m[j] == x[j];
    assert m[|x|..|m| - 1] == w;
    var q := Star(Space, Lit(")", End));
    var z := Maybe(Quote, q);
    var r := One(ClockRun, Star(ClockRun, Lit("Z", z)));
    CloseAt(m, |x|);
    MaybeAt(Quote, q, m, k + 1);
    ClockAt(z, m, i + 11, k);
    DayIsAt(r, m, i);
    MaybeAt(Quote, DayPat(r), m, 0);
    WholeIsAt(Gateway().bare, m);
  }

  // ---------- quoted times ----------

  lemma ClosePats()
    ensures var g := Gateway();
      && g.dqClose == Word("\"", Word(")", Lit(")", End))) && g.sqClose == Word("'", Word(")", Lit(")", End)))
      && g.dqArg == Word("\"", Lit(")", End)) && g.sqArg == Word("'", Lit(")", End))
      && g.time == WordsPat(["time", "(", "v", ":"], End)
  {
    FourWords("time", "(", "v", ":", End);
  }

  /** The quote that ends the argument, white space, and the parenthesis of time. */
  lemma ArgRead(d: char, z: string) returns (w: string)
    requires IsQuote(d) && Spells(Gateway().Arg(d), z)
    ensures z == [d] + w + ")" && Blank(w)
  {
    hide Spells, Gateway;
    ClosePats();
    var y;
    w, y := AfterWord([d], Lit(")", End), z);
    LastWord(")", y);
    BlankIsSpace(w);
  }

  lemma ArgSpell(d: char, w: string)
    requires IsQuote(d) && Blank(w)
    ensures Spells(Gateway().Arg(d), [d] + w + ")") && Determined(Gateway().Arg(d), "")
  {
    hide Spells, Gateway;
    ClosePats();
    BlankIsSpace(w);
    SpellsLast(")");
    SpellsWord([d], w, Lit(")", End), ")");
    ReadyLast(")", "");
    ReadyWord([d], Lit(")", End), "");
  }

  lemma TimeWords(o: string) returns (gaps: seq<string>)
    requires Spells(Gateway().time, o)
    ensures Gaps(gaps, 4) && o == Written(["time", "(", "v", ":"], gaps)
  {
    hide Gateway, Blank;
    ClosePats();
    var y;
    gaps, y := WordsRead(["time", "(", "v", ":"], End, o);
    assert y == "";
    assert Written(["time", "(", "v", ":"], gaps) + "" == Written(["time", "(", "v", ":"], gaps);
  }

  lemma TimeSpell(gaps: seq<string>)
    requires Gaps(gaps, 4)
    ensures Spells(Gateway().time, Written(["time", "(", "v", ":"], gaps))
  {
    hide Gateway, Blank;
    ClosePats();
    EndSpelled();
    WordsSpell(["time", "(", "v", ":"], End, gaps, "");
    assert Written(["time", "(", "v", ":"], gaps) + "" == Written(["time", "(", "v", ":"], gaps);
  }

  /** The argument of a time call, with any white space and either kind of quotes; and only such a call has one. */
  lemma TimeArgRead(e: string, a: string)
    ensures TimeArg(Gateway(), e) == Some(a) <==> exists d, gaps, w :: TimeWritten(e, d, a, gaps, w)
  {
    hide Gateway, Spells, Eat, EatRun, Blank, Written;
    var g := Gateway();
    if TimeArg(g, e) == Some(a) {
      var o := Eat(g.time, e).value;
      var d := o[0];
      var m := EatSound(g.time, e, o);
      var z := RunSound(d, g.Arg(d), o[1..], a, "");
      var gaps := TimeWords(m);
      assert z + "" == z && o == [d] + o[1..];
      var w := ArgRead(d, z);
      assert TimeWritten(e, d, a, gaps, w);
    }
    forall d, gaps, w | TimeWritten(e, d, a, gaps, w) ensures TimeArg(g, e) == Some(a) {
      TimeArgFound(e, d, a, gaps, w);
    }
  }

  lemma TimeArgFound(e: string, d: char, a: string, gaps: seq<string>, w: string)
    requires TimeWritten(e, d, a, gaps, w)
    ensures TimeArg(Gateway(), e) == Some(a)
  {
    hide Gateway, Spells, Eat, EatRun, Blank, Written, Determined;
    var g, o := Gateway(), Written(["time", "(", "v", ":"], gaps);
    var z := [d] + w + ")";
    var r := [d] + (a + z);
    assert r[0] == d && z[0] == d;
    TimeSpell(gaps);
    TimeReady(r);
    EatComplete(g.time, o, r);
    ArgSpell(d, w);
    RunFound(d, g.Arg(d), a, z, "");
    assert r[1..] == a + (z + "");
  }

  // ---------- absolute stops ----------

  lemma CloseRead(d: char, z: string) returns (w: string, v: string)
    requires IsQuote(d) && Spells(Gateway().Close(d), z)
    ensures z == [d] + w + ")" + (v + ")") && Blank(w) && Blank(v)
  {
    hide Spells, Gateway;
    ClosePats();
    var y, l;
    w, y := AfterWord([d], Word(")", Lit(")", End)), z);
    v, l := AfterWord(")", Lit(")", End), y);
    LastWord(")", l);
    BlankIsSpace(w);
    BlankIsSpace(v);
  }

  lemma CloseSpell(d: char, w: string, v: string)
    requires IsQuote(d) && Blank(w) && Blank(v)
    ensures Spells(Gateway().Close(d), [d] + w + (")" + v + ")"))
  {
    hide Spells, Gateway;
    ClosePats();
    BlankIsSpace(w);
    BlankIsSpace(v);
    SpellsLast(")");
    SpellsWord(")", v, Lit(")", End), ")");
    SpellsWord([d], w, Word(")", Lit(")", End)), ")" + v + ")");
  }

  lemma TimeEnds(x: string, d: char, body: string, gaps: seq<string>, w: string)
    requires TimeWritten(x, d, body, gaps, w)
    ensures x != "" && x[0] == 't' && Tight(x)
  {
    var o := Written(["time", "(", "v", ":"], gaps);
    assert o == "time" + gaps[0] + Written(["time", "(", "v", ":"][1..], gaps[1..]);
    assert o[0] == 't';
    assert x[0] == 't' && x[|x| - 1] == ')';
  }

  lemma StopEnds(x: string)
    requires StopWritten(AbsStop, x)
    ensures x != "" && Tight(x)
  {
    hide TimeWritten;
    if d, body, gaps, w :| TimeWritten(x, d, body, gaps, w) {
      TimeEnds(x, d, body, gaps, w);
    }
  }

  lemma QuotedRead(y: string, o: string, d: char, body: string, z: string) returns (x: string, v: string)
    requires QuotedParts(Gateway(), y, o, d, body, z)
    ensures y == x + (v + ")") && Blank(v) && exists gaps, w :: TimeWritten(x, d, body, gaps, w)
  {
    hide Gateway, Spells, Blank, Written;
    var gaps := TimeWords(o);
    var w;
    w, v := CloseRead(d, z);
    x := o + ([d] + (body + ([d] + w + ")")));
    QuotedGlue(o, d, body, [d] + w + ")", v + ")");
    assert TimeWritten(x, d, body, gaps, w);
  }

  lemma QuotedSpell(x: string, d: char, body: string, gaps: seq<string>, w: string, v: string)
    requires TimeWritten(x, d, body, gaps, w) && Blank(v)
    ensures AbsText(Gateway(), x + (v + ")"))
  {
    hide Gateway, Spells, Blank, Written;
    var o, z := Written(["time", "(", "v", ":"], gaps), [d] + w + (")" + v + ")");
    TimeSpell(gaps);
    CloseSpell(d, w, v);
    QuotedGlue(o, d, body, [d] + w + ")", v + ")");
    assert [d] + w + ")" + (v + ")") == z;
    AbsOfQuoted(Gateway(), x + (v + ")"), o, d, body, z);
  }

  /** An absolute stop, white space and the last parenthesis. */
  lemma AbsRead(y: string) returns (x: string, v: string)
    requires AbsText(Gateway(), y)
    ensures y == x + (v + ")") && Blank(v) && StopWritten(AbsStop, x)
  {
    hide Gateway, Spells, Blank, TimeWritten, BareWritten, QuotedParts;
    if Spells(Gateway().bare, y) {
      var i, k;
      x, v, i, k := BareRead(y);
    } else {
      var o, d, body, z :| QuotedParts(Gateway(), y, o, d, body, z);
      x, v := QuotedRead(y, o, d, body, z);
    }
  }

  lemma AbsSpell(x: string, v: string)
    requires StopWritten(AbsStop, x) && Blank(v)
    ensures AbsText(Gateway(), x + (v + ")"))
  {
    hide Gateway, Spells, Blank, TimeWritten, BareWritten, QuotedParts;
    if i, k :| BareWritten(x, i, k) {
      assert i >= 0 && k >= 0;
      BareSpell(x, i, k, v);
    } else {
      var d, body, gaps, w :| TimeWritten(x, d, body, gaps, w);
      QuotedSpell(x, d, body, gaps, w, v);
    }
  }

  // ---------- whole calls ----------

  function HeadWords(): seq<string> { [",", "stop", ":"] }

  lemma CallPats()
    ensures var g := Gateway();
      && g.open == WordsPat(["range", "(", "start"], Lit(":", End))
      && g.nowTail == WordsPat(HeadWords(), WordsPat(["now", "("], Word(")", Lit(")", End))))
      && g.varTail == WordsPat(HeadWords(), Word("v.timeRangeStop", Lit(")", End)))
      && g.head == WordsPat(HeadWords(), End)
  {
    ThreeWords("range", "(", "start", Lit(":", End));
    TwoWords("now", "(", Word(")", Lit(")", End)));
    ThreeWords(",", "stop", ":", WordsPat(["now", "("], Word(")", Lit(")", End))));
    ThreeWords(",", "stop", ":", Word("v.timeRangeStop", Lit(")", End)));
    ThreeWords(",", "stop", ":", End);
  }

  /** From the comma on. */
  function TailText(h: seq<string>, x: string, w: string): string
    requires |h| == 3
  {
    Written([",", "stop", ":"], h) + (x + (w + ")"))
  }

  lemma NowRead(t: string) returns (h: seq<string>, x: string, w: string)
    requires Spells(Gateway().nowTail, t)
    ensures Gaps(h, 3) && Blank(w) && StopWritten(NowStop, x) && t == TailText(h, x, w)
  {
    hide Gateway, Spells, Blank, Written;
    CallPats();
    var last := Word(")", Lit(")", End));
    var y, z, g, l;
    h, y := WordsRead(HeadWords(), WordsPat(["now", "("], last), t);
    g, z := WordsRead(["now", "("], last, y);
    w, l := AfterWord(")", Lit(")", End), z);
    LastWord(")", l);
    BlankIsSpace(w);
    x := Written(["now", "("], g) + ")";
    assert NowWritten(x, g);
    assert y == x + (w + ")");
  }

  lemma NowSpell(h: seq<string>, x: string, w: string, g: seq<string>)
    requires Gaps(h, 3) && Blank(w) && NowWritten(x, g)
    ensures Spells(Gateway().nowTail, TailText(h, x, w))
  {
    hide Gateway, Spells, Blank, Written;
    CallPats();
    var last := Word(")", Lit(")", End));
    SpellsLast(")");
    BlankIsSpace(w);
    SpellsWord(")", w, Lit(")", End), ")");
    WordsSpell(["now", "("], last, g, ")" + w + ")");
    assert Written(["now", "("], g) + (")" + w + ")") == x + (w + ")");
    WordsSpell(HeadWords(), WordsPat(["now", "("], last), h, x + (w + ")"));
  }

  lemma VarRead(t: string) returns (h: seq<string>, w: string)
    requires Spells(Gateway().varTail, t)
    ensures Gaps(h, 3) && Blank(w) && t == TailText(h, "v.timeRangeStop", w)
  {
    hide Gateway, Spells, Blank, Written;
    CallPats();
    var y, l;
    h, y := WordsRead(HeadWords(), Word("v.timeRangeStop", Lit(")", End)), t);
    w, l := AfterWord("v.timeRangeStop", Lit(")", End), y);
    LastWord(")", l);
    BlankIsSpace(w);
    Assoc("v.timeRangeStop", w, ")");
  }

  lemma VarSpell(h: seq<string>, w: string)
    requires Gaps(h, 3) && Blank(w)
    ensures Spells(Gateway().varTail, TailText(h, "v.timeRangeStop", w))
  {
    hide Gateway, Spells, Blank, Written;
    CallPats();
    SpellsLast(")");
    BlankIsSpace(w);
    SpellsWord("v.timeRangeStop", w, Lit(")", End), ")");
    Assoc("v.timeRangeStop", w, ")");
    WordsSpell(HeadWords(), Word("v.timeRangeStop", Lit(")", End)), h, "v.timeRangeStop" + (w + ")"));
  }

  lemma AbsTailRead(t: string, a: string, y: string, stop: string) returns (h: seq<string>, x: string, w: string)
    requires AbsParts(Gateway(), t, a, y, stop)
    ensures Gaps(h, 3) && Blank(w) && StopWritten(AbsStop, x) && t == TailText(h, x, w) && stop == x
  {
    hide Gateway, Spells, AbsText, Trim, StopWritten;
    CallPats();
    var e;
    h, e := WordsRead(HeadWords(), End, a);
    WholeEnd(e);
    assert Written(HeadWords(), h) + "" == Written(HeadWords(), h);
    x, w := AbsRead(y);
    StopEnds(x);
    BlankIsSpace(w);
    TrimOfCut(y, x, w);
  }

  lemma WholeEnd(e: string)
    ensures Spells(End, e) <==> e == ""
  {
  }

  lemma AbsTailSpell(h: seq<string>, x: string, w: string)
    requires Gaps(h, 3) && Blank(w) && StopWritten(AbsStop, x)
    ensures StopText(Gateway(), AbsStop, TailText(h, x, w), x)
  {
    hide Gateway, Spells, AbsText, Trim, StopWritten, Written, Blank;
    CallPats();
    EndSpelled();
    WordsSpell(HeadWords(), End, h, "");
    var a := Written(HeadWords(), h);
    assert a + "" == a;
    AbsSpell(x, w);
    StopEnds(x);
    BlankIsSpace(w);
    TrimOfCut(x + (w + ")"), x, w);
    assert AbsParts(Gateway(), a + (x + (w + ")")), a, x + (w + ")"), x);
  }

  lemma StopRead(form: Form, t: string, stop: string) returns (h: seq<string>, x: string, w: string)
    requires StopText(Gateway(), form, t, stop)
    ensures Gaps(h, 3) && Blank(w) && StopWritten(form, x) && t == TailText(h, x, w) && stop == if form.NowStop? then "now()" else x
  {
    hide Gateway, Spells, AbsParts, Blank, Written;
    match form {
      case NowStop => h, x, w := NowRead(t);
      case VarStop =>
        x := "v.timeRangeStop";
        h, w := VarRead(t);
      case AbsStop =>
        var a, y :| AbsParts(Gateway(), t, a, y, stop);
        h, x, w := AbsTailRead(t, a, y, stop);
    }
  }

  lemma TailSpell(form: Form, h: seq<string>, x: string, w: string)
    requires Gaps(h, 3) && Blank(w) && StopWritten(form, x)
    ensures StopText(Gateway(), form, TailText(h, x, w), if form.NowStop? then "now()" else x)
  {
    hide Gateway, Spells, AbsParts, Blank, Written, TailText;
    match form {
      case NowStop =>
        var g :| NowWritten(x, g);
        NowSpell(h, x, w, g);
      case VarStop => VarSpell(h, w);
      case AbsStop => AbsTailSpell(h, x, w);
    }
  }

  lemma OpenRead(o: string) returns (g: seq<string>)
    requires Spells(Gateway().open, o)
    ensures Gaps(g, 3) && o == Written(["range", "(", "start"], g) + ":"
  {
    hide Gateway, Spells, Blank, Written;
    CallPats();
    var l;
    g, l := WordsRead(["range", "(", "start"], Lit(":", End), o);
    LastWord(":", l);
  }

  lemma OpenSpell(g: seq<string>)
    requires Gaps(g, 3)
    ensures Spells(Gateway().open, Written(["range", "(", "start"], g) + ":")
  {
    hide Gateway, Spells, Blank, Written;
    CallPats();
    SpellsLast(":");
    WordsSpell(["range", "(", "start"], Lit(":", End), g, ":");
  }

  /**
    A range call is recognised at the front of a text exactly when the text begins with one as
    it can be written: range ( start : CAPTURE , stop : STOP ), with any white space between the
    words, a capture without commas, and a stop that is now ( ), v.timeRangeStop, a quoted time
    or a bare timestamp.
  */
  lemma CallWritten(form: Form, s: string, c: Call)
    ensures MatchCall(Gateway(), form, s) == Some(c) <==> exists g, h, x, w :: CallWrittenAs(form, s, c, g, h, x, w)
  {
    hide Gateway, Spells, MatchCall, StopText, StopWritten, Blank, Written, Sound, TailText;
    GatewaySound();
    if MatchCall(Gateway(), form, s) == Some(c) {
      var o, t := CallSound(Gateway(), form, s, c);
      var g := OpenRead(o);
      var h, x, w := StopRead(form, t, c.stop);
      assert CallWrittenAs(form, s, c, g, h, x, w) by {
        TailIs(h, x, w);
      }
    }
    forall g, h, x, w | CallWrittenAs(form, s, c, g, h, x, w) ensures MatchCall(Gateway(), form, s) == Some(c) {
      OpenSpell(g);
      TailSpell(form, h, x, w);
      TailIs(h, x, w);
      CallFound(Gateway(), form, Written(["range", "(", "start"], g) + ":", c.start, TailText(h, x, w), c.stop, c.rest);
    }
  }

  lemma TailIs(h: seq<string>, x: string, w: string)
    requires |h| == 3
    ensures TailText(h, x, w) == Written([",", "stop", ":"], h) + (x + (w + ")"))
  {
  }

  // ---------- reading a time expression ----------

  ghost predicate Quotes(s: string) {
    forall i :: 0 <= i < |s| ==> s[i] == '"'
  }

  ghost predicate NoQuoteEnds(s: string) {
    s != "" ==> s[0] != '"' && s[|s| - 1] != '"'
  }

  /** TrimQuotes takes off the double quotes at both ends, all of them and nothing else. */
  lemma {:induction false} TrimQuotesOf(a: string, x: string, b: string)
    requires Quotes(a) && Quotes(b) && NoQuoteEnds(x)
    ensures TrimQuotes(a + x + b) == x
    decreases |a| + |b|
  {
    var s := a + x + b;
    if a != "" {
      assert s[0] == a[0] && s[1..] == a[1..] + x + b;
      TrimQuotesOf(a[1..], x, b);
    } else if x == "" {
      assert s == b;
      if b != "" {
        assert s[1..] == b[1..] == "" + x + b[1..];
        TrimQuotesOf("", x, b[1..]);
      }
    } else if b != "" {
      assert s[0] == x[0] && s[|s| - 1] == b[|b| - 1] && s[..|s| - 1] == a + x + b[..|b| - 1];
      TrimQuotesOf(a, x, b[..|b| - 1]);
    } else {
      assert s == x;
    }
  }

  /**
    What a time expression, with any white space around it, reads as: time(v: "...") and
    time(v: '...') as their argument, any other text as itself without the double quotes at
    its ends.
  */
  lemma TimeRead(expr: string)
    ensures forall d, body, gaps, w :: TimeWritten(Trim(expr), d, body, gaps, w) ==> ParseTime(Gateway(), expr) == T.Parse(body)
    ensures (forall d, body, gaps, w :: !TimeWritten(Trim(expr), d, body, gaps, w)) ==>
      forall a, x, b :: Trim(expr) == a + x + b && Quotes(a) && Quotes(b) && NoQuoteEnds(x) ==> ParseTime(Gateway(), expr) == T.Parse(x)
  {
    hide TimeWritten, Gateway, TimeArg, T.Parse, Trim;
    var e := Trim(expr);
    forall d, body, gaps, w | TimeWritten(e, d, body, gaps, w) ensures ParseTime(Gateway(), expr) == T.Parse(body) {
      TimeArgRead(e, body);
    }
    if forall d, body, gaps, w :: !TimeWritten(e, d, body, gaps, w) {
      var o := TimeArg(Gateway(), e);
      if o.Some? {
        TimeArgRead(e, o.value);
      }
      forall a, x, b | e == a + x + b && Quotes(a) && Quotes(b) && NoQuoteEnds(x) ensures ParseTime(Gateway(), expr) == T.Parse(x) {
        TrimQuotesOf(a, x, b);
      }
    }
  }

  /** A text that does not begin with t is no time call. */
  lemma NoTimeCall(e: string)
    requires e == "" || e[0] != 't'
    ensures forall d, body, gaps, w :: !TimeWritten(e, d, body, gaps, w)
  {
    forall d, body, gaps, w ensures !TimeWritten(e, d, body, gaps, w) {
      if TimeWritten(e, d, body, gaps, w) {
        TimeEnds(e, d, body, gaps, w);
      }
    }
  }

  predicate QuoteOrNot(q: string) { q == "" || q == "\"" }

  /**
    Bare timestamps in UTC, with a double quote or none at either end and a fraction of any
    length, are stops of the third pattern, and each reads as the instant its fields write.
  */
  lemma BareStamp(ds: string, f: string, a: string, b: string)
    requires |ds| == 14 && AllDigits(ds) && IsFraction(f) && (f != "" ==> f[0] == '.') && QuoteOrNot(a) && QuoteOrNot(b)
    ensures StopWritten(AbsStop, a + StampText(ds, f, "Z") + b)
    ensures ParseTime(Gateway(), a + StampText(ds, f, "Z") + b) == T.Parse(StampText(ds, f, "Z"))
  {
    hide T.Parse, ParseTime, Gateway, Trim, StampText, DayAt, IsClock, BareWritten, TimeWritten;
    var x := StampText(ds, f, "Z");
    StampShape(ds, f);
    QuotedBare(a, x, b);
    var e := a + x + b;
    EdgesAreVisible(e);
    TrimOfTight(e);
    NoTimeCall(e);
    TimeRead(e);
  }

  lemma QuotedBare(a: string, x: string, b: string)
    requires DayAt(x, 0) && |x| > 12 && x[|x| - 1] == 'Z' && (forall j :: 11 <= j < |x| - 1 ==> IsClock(x[j]))
    requires QuoteOrNot(a) && QuoteOrNot(b)
    ensures BareWritten(a + x + b, |a|, |a| + |x| - 1) && NoQuoteEnds(x) && Quotes(a) && Quotes(b)
    ensures var e := a + x + b; ('0' <= e[0] <= '9' || e[0] == '"') && (e[|e| - 1] == 'Z' || e[|e| - 1] == '"')
  {
    var e, n := a + x + b, |a|;
    assert forall i :: 0 <= i < |x| ==> e[n + i] == x[i];
    assert x[0] == e[n];
    forall j | n + 11 <= j < n + |x| - 1 ensures IsClock(e[j]) {
      assert e[j] == x[j - n];
    }
  }

  lemma EdgesAreVisible(e: string)
    requires e != "" && ('0' <= e[0] <= '9' || e[0] == '"') && (e[|e| - 1] == 'Z' || e[|e| - 1] == '"')
    ensures Tight(e)
  {
  }

  lemma StampShape(ds: string, f: string)
    requires |ds| == 14 && AllDigits(ds) && IsFraction(f) && (f != "" ==> f[0] == '.')
    ensures var x := StampText(ds, f, "Z");
      DayAt(x, 0) && |x| > 12 && x[|x| - 1] == 'Z' && forall j :: 11 <= j < |x| - 1 ==> IsClock(x[j])
  {
    var x := StampText(ds, f, "Z");
    var day, clock := ds[..4] + "-" + ds[4..6] + "-" + ds[6..8] + "T", ds[8..10] + ":" + ds[10..12] + ":" + ds[12..14];
    assert |day| == 11 && x == day + (clock + f + "Z");
    assert forall j :: 0 <= j < 8 ==> IsClock(clock[j]);
    assert forall j :: 0 <= j < |clock + f| ==> x[11 + j] == (clock + f)[j];
    assert forall j :: 0 <= j < |clock + f| ==> IsClock((clock + f)[j]);
  }

  /** Quoted times: any text without its quote, in quotes of either kind, is a stop and reads as that text does. */
  lemma QuotedStamp(d: char, body: string, gaps: seq<string>, w: string)
    requires Gaps(gaps, 4) && Blank(w) && IsQuote(d) && body != "" && d !in body
    ensures var x := Written(["time", "(", "v", ":"], gaps) + ([d] + (body + ([d] + w + ")")));
            StopWritten(AbsStop, x) && ParseTime(Gateway(), x) == T.Parse(body)
  {
    hide T.Parse, ParseTime, Gateway, Trim, Written, Blank;
    var x := Written(["time", "(", "v", ":"], gaps) + ([d] + (body + ([d] + w + ")")));
    assert TimeWritten(x, d, body, gaps, w);
    TimeEnds(x, d, body, gaps, w);
    TrimOfTight(x);
    TimeRead(x);
  }
}
