/**
  The three range patterns of internal/flux/split.go (lines 13-17). A call is recognised as
      range ( start : <anything without a comma> , stop : <stop> )
  with optional white space between the words, where <stop> is now(), v.timeRangeStop or an
  absolute time. MatchCall matches at the front of a text; CallFound and CallSound say that
  it matches exactly the texts of the pattern, and that what follows does not matter.
*/
module RangeCall {
  import opened Text
  import opened Patterns

  datatype Form = NowStop | VarStop | AbsStop

  /** start is the capture with its surrounding blanks, rest the text after the call. */
  datatype Call = Call(start: string, stop: string, rest: string)

  /** The pieces the three patterns are made of. */
  datatype Grammar = Grammar(
    open: Pat,         // range ( start :
    nowTail: Pat,      // , stop : now ( ) )
    varTail: Pat,      // , stop : v.timeRangeStop )
    head: Pat,         // , stop :
    time: Pat,         // time ( v :
    dqClose: Pat,      // " ) )
    sqClose: Pat,      // ' ) )
    bare: Pat,         // a bare timestamp, perhaps in double quotes, and )
    dqArg: Pat,        // " )
    sqArg: Pat)        // ' )
  {
    function Close(d: char): Pat { if d == '"' then dqClose else sqClose }
    function Arg(d: char): Pat { if d == '"' then dqArg else sqArg }
  }

  // ---------- matching ----------

  predicate IsQuote(d: char) { d == '"' || d == '\'' }

  /** From the absolute stop expression to the end of the call. */
  function AbsEnd(g: Grammar, s: string): (r: Option<string>)
    ensures r.Some? ==> SuffixOf(r.value, s)
  {
    var o := Eat(g.time, s);
    if o.Some? && o.value != "" && IsQuote(o.value[0]) then
      var b := EatRun(o.value[0], g.Close(o.value[0]), o.value[1..]);
      if b.Some? then
        SuffixDrop(o.value, 1, b.value.1);
        SuffixDrop(s, |s| - |o.value|, b.value.1);
        Some(b.value.1)
      else None
    else
      Eat(g.bare, s)
  }

  /** The text of s up to its end r, without the closing parenthesis and surrounding blanks. */
  function Cut(s: string, r: Option<string>): (e: Option<(string, string)>)
    ensures e.Some? ==> r == Some(e.value.1)
  {
    if r.None? || |s| <= |r.value| then None
    else Some((Trim(s[..|s| - |r.value| - 1]), r.value))
  }

  function MatchStop(g: Grammar, form: Form, t: string): (r: Option<(string, string)>)
    ensures r.Some? ==> SuffixOf(r.value.1, t)
  {
    match form
    case NowStop =>
      var r := Eat(g.nowTail, t);
      if r.Some? then Some(("now()", r.value)) else None
    case VarStop =>
      var r := Eat(g.varTail, t);
      if r.Some? then Some(("v.timeRangeStop", r.value)) else None
    case AbsStop =>
      var s := Eat(g.head, t);
      if s.None? then None else Cut(s.value, AbsEnd(g, s.value))
  }

  /** The capture, up to the first comma, and the stop. */
  function MatchBounds(g: Grammar, form: Form, a: string): (r: Option<Call>)
    ensures r.Some? ==> SuffixOf(r.value.rest, a)
  {
    var run := Before(a, ',');
    if run == "" then None else
    var t := MatchStop(g, form, a[|run|..]);
    if t.None? then None else Some(Call(run, t.value.0, t.value.1))
  }

  /** The pattern for form, matched at the front of s. */
  function MatchCall(g: Grammar, form: Form, s: string): (r: Option<Call>)
    ensures r.Some? ==> SuffixOf(r.value.rest, s)
  {
    var a := Eat(g.open, s);
    if a.None? then None else MatchBounds(g, form, a.value)
  }

  // ---------- the texts of the patterns ----------

  ghost predicate QuotedParts(g: Grammar, x: string, o: string, d: char, body: string, z: string) {
    x == o + ([d] + (body + z)) && Spells(g.time, o) && IsQuote(d) && body != "" && d !in body && Spells(g.Close(d), z)
  }

  /** x is an absolute stop expression with the closing parenthesis of range. */
  ghost predicate AbsText(g: Grammar, x: string) {
    (exists o, d, body, z :: QuotedParts(g, x, o, d, body, z)) || Spells(g.bare, x)
  }

  ghost predicate AbsParts(g: Grammar, t: string, a: string, x: string, stop: string) {
    t == a + x && Spells(g.head, a) && AbsText(g, x) && x != "" && stop == Trim(x[..|x| - 1])
  }

  ghost predicate StopText(g: Grammar, form: Form, t: string, stop: string) {
    match form
    case NowStop => Spells(g.nowTail, t) && stop == "now()"
    case VarStop => Spells(g.varTail, t) && stop == "v.timeRangeStop"
    case AbsStop => exists a, x :: AbsParts(g, t, a, x, stop)
  }

  /** The text h + run + t is a range call of the given form, with capture run. */
  ghost predicate CallText(g: Grammar, form: Form, h: string, run: string, t: string, stop: string) {
    Spells(g.open, h) && run != "" && ',' !in run && StopText(g, form, t, stop)
  }

  /** What the proofs below use of the patterns: taking all one can is the only choice, and how their texts begin. */
  ghost predicate Sound(g: Grammar) {
    && (forall r :: Determined(g.open, r))
    && (forall r :: Determined(g.nowTail, r))
    && (forall r :: Determined(g.varTail, r))
    && (forall r :: Determined(g.dqClose, r))
    && (forall r :: Determined(g.sqClose, r))
    && (forall r :: Determined(g.bare, r))
    && (forall r :: r != "" && !In(Space, r[0]) ==> Determined(g.head, r))
    && (forall r :: r != "" && !In(Space, r[0]) ==> Determined(g.time, r))
    && (forall m :: Spells(g.open, m) ==> "range" <= m)
    && (forall m :: Spells(g.nowTail, m) ==> "," <= m)
    && (forall m :: Spells(g.varTail, m) ==> "," <= m)
    && (forall m :: Spells(g.head, m) ==> "," <= m)
    && (forall m :: Spells(g.time, m) ==> "time" <= m)
    && (forall m :: Spells(g.dqClose, m) ==> m != "" && m[0] == '"')
    && (forall m :: Spells(g.sqClose, m) ==> m != "" && m[0] == '\'')
    && (forall m :: Spells(g.bare, m) ==> m != "" && (In(Digits, m[0]) || In(Quote, m[0])))
  }

  // ---------- every text of the pattern is matched ----------

  lemma QuotedFound(g: Grammar, x: string, o: string, d: char, body: string, z: string, r: string)
    requires Sound(g) && QuotedParts(g, x, o, d, body, z)
    ensures AbsEnd(g, x + r) == Some(r) && "time" <= x
  {
    hide Eat, Spells, EatRun;
    var w := [d] + (body + (z + r));
    QuotedGlue(o, d, body, z, r);
    EatComplete(g.time, o, w);
    RunFound(d, g.Close(d), body, z, r);
    assert w[1..] == body + (z + r);
  }

  lemma NotTime(g: Grammar, s: string)
    requires Sound(g) && s != "" && s[0] != 't'
    ensures Eat(g.time, s).None?
  {
    if Eat(g.time, s).Some? {
      var m := EatSound(g.time, s, Eat(g.time, s).value);
    }
  }

  lemma BareFound(g: Grammar, x: string, r: string)
    requires Sound(g) && Spells(g.bare, x)
    ensures AbsEnd(g, x + r) == Some(r)
  {
    EatComplete(g.bare, x, r);
    NotTime(g, x + r);
  }

  lemma AbsFound(g: Grammar, x: string, r: string)
    requires Sound(g) && AbsText(g, x)
    ensures AbsEnd(g, x + r) == Some(r) && x != "" && !In(Space, x[0])
  {
    if Spells(g.bare, x) {
      BareFound(g, x, r);
    } else {
      var o, d, body, z :| QuotedParts(g, x, o, d, body, z);
      QuotedFound(g, x, o, d, body, z, r);
    }
  }

  lemma CutFound(x: string, r: string)
    requires x != ""
    ensures Cut(x + r, Some(r)) == Some((Trim(x[..|x| - 1]), r))
  {
    assert (x + r)[..|x| - 1] == x[..|x| - 1];
  }

  lemma AfterHead(g: Grammar, a: string, y: string)
    requires Sound(g) && Spells(g.head, a) && y != "" && !In(Space, y[0])
    ensures MatchStop(g, AbsStop, a + y) == Cut(y, AbsEnd(g, y)) && "," <= a
  {
    EatComplete(g.head, a, y);
  }

  lemma AbsStopFound(g: Grammar, t: string, a: string, x: string, stop: string, r: string)
    requires Sound(g) && AbsParts(g, t, a, x, stop)
    ensures MatchStop(g, AbsStop, t + r) == Some((stop, r)) && "," <= t
  {
    AbsFound(g, x, r);
    AfterHead(g, a, x + r);
    CutFound(x, r);
    Assoc(a, x, r);
  }

  lemma StopFound(g: Grammar, form: Form, t: string, stop: string, r: string)
    requires Sound(g) && StopText(g, form, t, stop)
    ensures MatchStop(g, form, t + r) == Some((stop, r)) && "," <= t
  {
    match form
    case NowStop => EatComplete(g.nowTail, t, r);
    case VarStop => EatComplete(g.varTail, t, r);
    case AbsStop =>
      var a, x :| AbsParts(g, t, a, x, stop);
      AbsStopFound(g, t, a, x, stop, r);
  }

  lemma Regroup(a: string, b: string, c: string, d: string)
    ensures a + (b + (c + d)) == a + b + c + d
  {
  }

  /** Every text of the pattern is matched, whatever follows it. */
  lemma CallFound(g: Grammar, form: Form, h: string, run: string, t: string, stop: string, r: string)
    requires Sound(g) && CallText(g, form, h, run, t, stop)
    ensures MatchCall(g, form, h + run + t + r) == Some(Call(run, stop, r))
  {
    var w := run + (t + r);
    EatComplete(g.open, h, w);
    StopFound(g, form, t, stop, r);
    BeforeStops(run, ',', t + r);
    assert w[|run|..] == t + r;
    Regroup(h, run, t, r);
  }

  // ---------- and nothing else is ----------

  lemma QuotedGlue(o: string, d: char, body: string, u: string, v: string)
    ensures o + ([d] + (body + (u + v))) == o + ([d] + (body + u)) + v
  {
  }

  lemma AbsOfQuoted(g: Grammar, x: string, o: string, d: char, body: string, z: string)
    requires QuotedParts(g, x, o, d, body, z)
    ensures AbsText(g, x)
  {
  }

  lemma QuotedSound(g: Grammar, s: string, w: string, body: string, r: string) returns (x: string)
    requires Eat(g.time, s) == Some(w) && w != "" && IsQuote(w[0]) && EatRun(w[0], g.Close(w[0]), w[1..]) == Some((body, r))
    ensures s == x + r && AbsText(g, x)
  {
    hide Eat, EatRun, Spells;
    var o := EatSound(g.time, s, w);
    var z := RunSound(w[0], g.Close(w[0]), w[1..], body, r);
    x := o + ([w[0]] + (body + z));
    assert w == [w[0]] + w[1..];
    Assoc(body, z, r);
    QuotedGlue(o, w[0], body, z, r);
    AbsOfQuoted(g, x, o, w[0], body, z);
  }

  lemma AbsSound(g: Grammar, s: string, r: string) returns (x: string)
    requires Sound(g) && AbsEnd(g, s) == Some(r)
    ensures s == x + r && AbsText(g, x)
  {
    var w := Eat(g.time, s);
    if w.Some? && w.value != "" && IsQuote(w.value[0]) {
      x := QuotedSound(g, s, w.value, EatRun(w.value[0], g.Close(w.value[0]), w.value[1..]).value.0, r);
    } else {
      x := EatSound(g.bare, s, r);
    }
  }

  lemma CutSound(x: string, r: string, stop: string)
    requires Cut(x + r, Some(r)) == Some((stop, r))
    ensures x != "" && stop == Trim(x[..|x| - 1])
  {
    assert (x + r)[..|x| - 1] == x[..|x| - 1];
  }

  lemma AbsStopSound(g: Grammar, t: string, s: string, stop: string, r: string) returns (u: string)
    requires Sound(g) && Eat(g.head, t) == Some(s) && Cut(s, AbsEnd(g, s)) == Some((stop, r))
    ensures t == u + r && StopText(g, AbsStop, u, stop)
  {
    var a := EatSound(g.head, t, s);
    var x := AbsSound(g, s, r);
    u := a + x;
    CutSound(x, r, stop);
    Assoc(a, x, r);
    assert AbsParts(g, u, a, x, stop);
  }

  lemma StopSound(g: Grammar, form: Form, t: string, stop: string, r: string) returns (u: string)
    requires Sound(g) && MatchStop(g, form, t) == Some((stop, r))
    ensures t == u + r && StopText(g, form, u, stop)
  {
    match form
    case NowStop => u := EatSound(g.nowTail, t, r);
    case VarStop => u := EatSound(g.varTail, t, r);
    case AbsStop => u := AbsStopSound(g, t, Eat(g.head, t).value, stop, r);
  }

  /** Only texts of the pattern are matched. */
  lemma CallSound(g: Grammar, form: Form, s: string, c: Call) returns (h: string, t: string)
    requires Sound(g) && MatchCall(g, form, s) == Some(c)
    ensures s == h + c.start + t + c.rest && CallText(g, form, h, c.start, t, c.stop)
  {
    var a := Eat(g.open, s).value;
    h := EatSound(g.open, s, a);
    t := StopSound(g, form, a[|c.start|..], c.stop, c.rest);
    assert a == c.start + a[|c.start|..];
    Regroup(h, c.start, t, c.rest);
  }

  /** A call is recognised by its own text alone: in front of any other text it is found again. */
  lemma CallLocal(g: Grammar, form: Form, s: string, c: Call, r: string)
    requires Sound(g) && MatchCall(g, form, s) == Some(c)
    ensures var m := s[..|s| - |c.rest|];
            MatchCall(g, form, m + r) == Some(c.(rest := r)) && "range" <= m
  {
    var h, t := CallSound(g, form, s, c);
    CallFound(g, form, h, c.start, t, c.stop, r);
    assert s[..|s| - |c.rest|] == h + c.start + t;
  }

  // ---------- blanks before the last parenthesis ----------

  /** Texts of p end in a visible character, blanks and a closing parenthesis. */
  predicate Closing(p: Pat) {
    match p
    case End => false
    case Lit(t, q) => t != "" && !IsSpace(t[|t| - 1]) && Closing(q)
    case One(c, q) => c != Space && Closing(q)
    case Star(c, q) => if c == Space then q == Lit(")", End) || (q.Lit? && Closing(q)) else Closing(q)
    case Maybe(c, q) => c != Space && Closing(q)
  }

  predicate NoBlankEnd(u: string) {
    u == "" || !IsSpace(u[|u| - 1])
  }

  lemma VisiblePiece(p: Pat, a: string, v: string)
    requires Closing(p) && p != Star(Space, Lit(")", End)) && Front(p, a)
    requires NoBlankEnd(v) && (p.rest.Lit? ==> v != "")
    ensures NoBlankEnd(a + v) && (p.Lit? ==> a + v != "")
  {
    if v == "" {
      assert a + v == a;
    } else {
      assert (a + v)[|a + v| - 1] == v[|v| - 1];
    }
  }

  lemma OnlyBlanks(w: string, y: string)
    requires AllIn(Space, w) && Spells(Lit(")", End), y)
    ensures w + y == "" + (w + ")") && Spells(Star(Space, Lit(")", End)), "" + ")")
  {
    assert y == ")" + y[1..];
    assert "" + (w + ")") == w + ")";
    SpellsLast(")");
    SpellsStar(Space, Lit(")", End), "", ")");
  }

  /** The blanks before the last parenthesis can be left out. */
  lemma {:induction false} Tighten(p: Pat, z: string) returns (u: string, w: string)
    requires Closing(p) && Spells(p, z)
    ensures z == u + (w + ")") && AllIn(Space, w) && Spells(p, u + ")")
    ensures NoBlankEnd(u) && (p.Lit? ==> u != "")
    decreases p
  {
    var a, y := FrontOf(p, z);
    if p == Star(Space, Lit(")", End)) {
      u, w := "", a;
      OnlyBlanks(w, y);
    } else {
      var v;
      v, w := Tighten(p.rest, y);
      u := a + v;
      SpellsFront(p, a, v + ")");
      VisiblePiece(p, a, v);
      TightenGlue(a, v, w);
    }
  }

  lemma TightenGlue(a: string, v: string, w: string)
    ensures a + (v + (w + ")")) == a + v + (w + ")")
    ensures a + (v + ")") == a + v + ")"
  {
  }

  lemma DropParenthesis(u: string, w: string)
    ensures var x := u + (w + ")"); x[..|x| - 1] == u + w
  {
  }

  /** TrimSpace undoes blanks behind a visible end. */
  lemma {:induction false} TrimBlanks(s: string, w: string)
    requires s != "" && Tight(s) && AllIn(Space, w)
    ensures Trim(s + w) == s
  {
    assert TrimLeft(s + w) == s + w;
    TrimRightBlanks(s, w);
  }

  lemma {:induction false} TrimRightBlanks(s: string, w: string)
    requires s != "" && Tight(s) && AllIn(Space, w)
    ensures TrimRight(s + w) == s
  {
    if w == "" {
      assert s + w == s;
    } else {
      var v := w[..|w| - 1];
      assert (s + w)[..|s + w| - 1] == s + v;
      TrimRightBlanks(s, v);
    }
  }

  /** The patterns of an absolute stop end as Closing says. */
  predicate Closes(g: Grammar) {
    Closing(g.dqClose) && Closing(g.sqClose) && Closing(g.bare) && g.dqClose.Lit? && g.sqClose.Lit?
  }

  lemma QuotedTight(g: Grammar, x: string, o: string, d: char, body: string, z: string) returns (e: string, w: string)
    requires Sound(g) && Closes(g) && QuotedParts(g, x, o, d, body, z)
    ensures x == e + (w + ")") && AllIn(Space, w) && e != "" && Tight(e) && AbsText(g, e + ")")
  {
    var u;
    u, w := Tighten(g.Close(d), z);
    e := o + ([d] + (body + u));
    QuotedGlue(o, d, body, u, w + ")");
    QuotedEdges(g, o, d, body, u);
    QuotedGlue(o, d, body, u, ")");
    AbsOfQuoted(g, e + ")", o, d, body, u + ")");
  }

  lemma QuotedEdges(g: Grammar, o: string, d: char, body: string, u: string)
    requires Sound(g) && Spells(g.time, o) && u != "" && NoBlankEnd(u)
    ensures var e := o + ([d] + (body + u)); e != "" && Tight(e)
  {
    var e := o + ([d] + (body + u));
    assert e[0] == 't';
    assert e[|e| - 1] == u[|u| - 1];
  }

  lemma BareTight(g: Grammar, x: string) returns (e: string, w: string)
    requires Sound(g) && Closes(g) && Spells(g.bare, x)
    ensures x == e + (w + ")") && AllIn(Space, w) && e != "" && Tight(e) && AbsText(g, e + ")")
  {
    e, w := Tighten(g.bare, x);
    assert (e + ")")[0] != ')';
    assert e != "" && e[0] == (e + ")")[0];
  }

  /** Without blanks before the parenthesis, an absolute stop is still one. */
  lemma AbsTight(g: Grammar, x: string) returns (e: string)
    requires Sound(g) && Closes(g) && AbsText(g, x) && x != ""
    ensures e == Trim(x[..|x| - 1]) && e != "" && Tight(e) && AbsText(g, e + ")")
  {
    var w;
    if Spells(g.bare, x) {
      e, w := BareTight(g, x);
    } else {
      var o, d, body, z :| QuotedParts(g, x, o, d, body, z);
      e, w := QuotedTight(g, x, o, d, body, z);
    }
    TrimOfCut(x, e, w);
  }

  lemma TrimOfCut(x: string, e: string, w: string)
    requires x == e + (w + ")") && AllIn(Space, w) && e != "" && Tight(e)
    ensures Trim(x[..|x| - 1]) == e
  {
    DropParenthesis(e, w);
    TrimBlanks(e, w);
  }

  // ---------- the actual patterns ----------

  function StopHead(q: Pat): Pat {
    Word(",", Word("stop", Word(":", q)))
  }

  function BareDayPat(): Pat {
    One(Digits, One(Digits, Lit("-", One(Digits, One(Digits, Lit("T", One(ClockRun, Star(ClockRun, BareEndPat()))))))))
  }

  function BareEndPat(): Pat {
    Lit("Z", Maybe(Quote, Star(Space, Lit(")", End))))
  }

  /** The regular expressions of internal/flux/split.go. */
  function Gateway(): Grammar {
    Grammar(
      Word("range", Word("(", Word("start", Lit(":", End)))),
      StopHead(Word("now", Word("(", Word(")", Lit(")", End))))),
      StopHead(Word("v.timeRangeStop", Lit(")", End))),
      StopHead(End),
      Word("time", Word("(", Word("v", Word(":", End)))),
      Word("\"", Word(")", Lit(")", End))),
      Word("'", Word(")", Lit(")", End))),
      Maybe(Quote, One(Digits, One(Digits, One(Digits, One(Digits, Lit("-", BareDayPat())))))),
      Word("\"", Lit(")", End)),
      Word("'", Lit(")", End)))
  }

  lemma StopHeadReady(q: Pat, r: string)
    requires Ready(q, r)
    ensures Ready(StopHead(q), r)
  {
    ReadyWord(":", q, r);
    ReadyWord("stop", Word(":", q), r);
    ReadyWord(",", Word("stop", Word(":", q)), r);
  }

  lemma OpenReady(r: string)
    ensures Ready(Gateway().open, r)
  {
    ReadyLast(":", r);
    ReadyWord("start", Lit(":", End), r);
    ReadyWord("(", Word("start", Lit(":", End)), r);
    ReadyWord("range", Word("(", Word("start", Lit(":", End))), r);
  }

  lemma NowReady(r: string)
    ensures Ready(Gateway().nowTail, r)
  {
    ReadyLast(")", r);
    ReadyWord(")", Lit(")", End), r);
    ReadyWord("(", Word(")", Lit(")", End)), r);
    ReadyWord("now", Word("(", Word(")", Lit(")", End))), r);
    StopHeadReady(Word("now", Word("(", Word(")", Lit(")", End)))), r);
  }

  lemma VarReady(r: string)
    ensures Ready(Gateway().varTail, r)
  {
    ReadyLast(")", r);
    ReadyWord("v.timeRangeStop", Lit(")", End), r);
    StopHeadReady(Word("v.timeRangeStop", Lit(")", End)), r);
  }

  lemma HeadReady(r: string)
    requires r != "" && !In(Space, r[0])
    ensures Ready(Gateway().head, r)
  {
    assert Ready(End, r);
    StopHeadReady(End, r);
  }

  lemma TimeReady(r: string)
    requires r != "" && !In(Space, r[0])
    ensures Ready(Gateway().time, r)
  {
    assert Ready(End, r);
    ReadyWord(":", End, r);
    ReadyWord("v", Word(":", End), r);
    ReadyWord("(", Word("v", Word(":", End)), r);
    ReadyWord("time", Word("(", Word("v", Word(":", End))), r);
  }

  lemma CloseReady(r: string)
    ensures Ready(Gateway().dqClose, r) && Ready(Gateway().sqClose, r)
  {
    ReadyLast(")", r);
    ReadyWord(")", Lit(")", End), r);
    ReadyWord("\"", Word(")", Lit(")", End)), r);
    ReadyWord("'", Word(")", Lit(")", End)), r);
  }

  lemma BareReady(r: string)
    ensures Determined(Gateway().bare, r)
  {
    var e := BareEndPat();
    assert Determined(Lit(")", End), r) && Off(Lit(")", End), r, Space) && Off(Lit(")", End), r, Quote);
    assert Determined(Star(Space, Lit(")", End)), r) && Off(Star(Space, Lit(")", End)), r, Quote);
    assert Determined(e, r) && Off(e, r, ClockRun);
    var c := Lit("T", One(ClockRun, Star(ClockRun, e)));
    assert Determined(c, r);
    var b := Lit("-", One(Digits, One(Digits, c)));
    assert Determined(b, r);
    assert Determined(BareDayPat(), r);
    var a := One(Digits, One(Digits, Lit("-", BareDayPat())));
    assert Determined(a, r);
    assert Off(One(Digits, One(Digits, a)), r, Quote);
  }

  lemma BareBegins(m: string)
    requires Spells(Gateway().bare, m)
    ensures m != "" && (In(Digits, m[0]) || In(Quote, m[0]))
  {
    var q := Gateway().bare.rest;
    assert q.One? && q.cls == Digits;
    assert Spells(q, m) || (m != "" && In(Quote, m[0]));
  }

  lemma WordsBegin(m: string)
    ensures var g := Gateway();
      && (Spells(g.open, m) ==> "range" <= m)
      && (Spells(g.nowTail, m) || Spells(g.varTail, m) || Spells(g.head, m) ==> "," <= m)
      && (Spells(g.time, m) ==> "time" <= m)
      && (Spells(g.dqClose, m) ==> "\"" <= m)
      && (Spells(g.sqClose, m) ==> "'" <= m)
  {
  }

  lemma GatewayCloses()
    ensures Closes(Gateway())
  {
    assert Closing(Star(Space, Lit(")", End)));
    assert Closing(Lit(")", Star(Space, Lit(")", End))));
    assert Closing(Word("\"", Word(")", Lit(")", End))));
    assert Closing(Word("'", Word(")", Lit(")", End))));
    assert Closing(BareEndPat());
    var c := Lit("T", One(ClockRun, Star(ClockRun, BareEndPat())));
    assert Closing(c);
    assert Closing(Lit("-", One(Digits, One(Digits, c))));
    assert Closing(BareDayPat());
    assert Closing(One(Digits, One(Digits, Lit("-", BareDayPat()))));
  }

  /** The gateway's own patterns leave the matcher no choice. */
  lemma GatewaySound()
    ensures Sound(Gateway())
  {
    GatewayDetermined(Gateway());
    GatewayBegins(Gateway());
  }

  lemma GatewayDetermined(g: Grammar)
    requires g == Gateway()
    ensures forall r :: Determined(g.open, r)
    ensures forall r :: Determined(g.nowTail, r)
    ensures forall r :: Determined(g.varTail, r)
    ensures forall r :: Determined(g.dqClose, r)
    ensures forall r :: Determined(g.sqClose, r)
    ensures forall r :: Determined(g.bare, r)
    ensures forall r :: r != "" && !In(Space, r[0]) ==> Determined(g.head, r)
    ensures forall r :: r != "" && !In(Space, r[0]) ==> Determined(g.time, r)
  {
    forall r ensures Determined(g.open, r) { OpenReady(r); }
    forall r ensures Determined(g.nowTail, r) { NowReady(r); }
    forall r ensures Determined(g.varTail, r) { VarReady(r); }
    forall r ensures Determined(g.dqClose, r) && Determined(g.sqClose, r) { CloseReady(r); }
    forall r ensures Determined(g.bare, r) { BareReady(r); }
    forall r | r != "" && !In(Space, r[0]) ensures Determined(g.head, r) && Determined(g.time, r) {
      HeadReady(r);
      TimeReady(r);
    }
  }

  lemma GatewayBegins(g: Grammar)
    requires g == Gateway()
    ensures forall m :: Spells(g.open, m) ==> "range" <= m
    ensures forall m :: Spells(g.nowTail, m) ==> "," <= m
    ensures forall m :: Spells(g.varTail, m) ==> "," <= m
    ensures forall m :: Spells(g.head, m) ==> "," <= m
    ensures forall m :: Spells(g.time, m) ==> "time" <= m
    ensures forall m :: Spells(g.dqClose, m) ==> m != "" && m[0] == '"'
    ensures forall m :: Spells(g.sqClose, m) ==> m != "" && m[0] == '\''
    ensures forall m :: Spells(g.bare, m) ==> m != "" && (In(Digits, m[0]) || In(Quote, m[0]))
  {
    forall m ensures Spells(g.open, m) ==> "range" <= m { WordsBegin(m); }
    forall m ensures Spells(g.nowTail, m) ==> "," <= m { WordsBegin(m); }
    forall m ensures Spells(g.varTail, m) ==> "," <= m { WordsBegin(m); }
    forall m ensures Spells(g.head, m) ==> "," <= m { WordsBegin(m); }
    forall m ensures Spells(g.time, m) ==> "time" <= m { WordsBegin(m); }
    forall m ensures Spells(g.dqClose, m) ==> m != "" && m[0] == '"' { WordsBegin(m); }
    forall m ensures Spells(g.sqClose, m) ==> m != "" && m[0] == '\'' { WordsBegin(m); }
    forall m | Spells(g.bare, m) ensures m != "" && (In(Digits, m[0]) || In(Quote, m[0])) { BareBegins(m); }
  }
}
