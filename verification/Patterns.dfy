/**
  The fragment of Go's regexp syntax that internal/flux/split.go uses: literals, character
  classes, starred classes and optional characters, with no anchors and no lookaround.
  Spells gives the language of a pattern, Eat matches it at the front of a text by taking as
  much as it can. For the patterns of this project the two agree (EatExact), so backtracking
  never matters and a match depends on the matched text alone.
*/
module Patterns {
  import opened Text

  /** White space (\s), digits (\d), the run in a bare timestamp ([0-9:\.\+\-]), a double quote. */
  datatype Class = Space | Digits | ClockRun | Quote

  predicate In(cls: Class, c: char) {
    match cls
    case Space => c == '\t' || c == '\n' || c == '\U{0C}' || c == '\r' || c == ' '
    case Digits => '0' <= c <= '9'
    case ClockRun => '0' <= c <= '9' || c == ':' || c == '.' || c == '+' || c == '-'
    case Quote => c == '"'
  }

  predicate Apart(a: Class, b: Class) {
    a != b && !(a.Digits? && b.ClockRun?) && !(a.ClockRun? && b.Digits?)
  }

  datatype Pat =
    | End
    | Lit(text: string, rest: Pat)
    | One(cls: Class, rest: Pat)
    | Star(cls: Class, rest: Pat)
    | Maybe(cls: Class, rest: Pat)

  predicate AllIn(cls: Class, s: string) {
    forall i :: 0 <= i < |s| ==> In(cls, s[i])
  }

  /** The whole text m is in the language of p. */
  ghost predicate Spells(p: Pat, m: string) {
    match p
    case End => m == ""
    case Lit(t, q) => t <= m && Spells(q, m[|t|..])
    case One(c, q) => m != "" && In(c, m[0]) && Spells(q, m[1..])
    case Star(c, q) => exists k: nat :: k <= |m| && AllIn(c, m[..k]) && Spells(q, m[k..])
    case Maybe(c, q) => Spells(q, m) || (m != "" && In(c, m[0]) && Spells(q, m[1..]))
  }

  predicate SuffixOf(r: string, s: string) {
    |r| <= |s| && s[|s| - |r|..] == r
  }

  lemma SuffixDrop(s: string, k: nat, r: string)
    requires k <= |s| && SuffixOf(r, s[k..])
    ensures SuffixOf(r, s)
  {
    assert s[k..][|s| - k - |r|..] == s[|s| - |r|..];
  }

  function Skip(cls: Class, s: string): (r: string)
    ensures SuffixOf(r, s)
    ensures AllIn(cls, s[..|s| - |r|])
    ensures r != "" ==> !In(cls, r[0])
  {
    if s != "" && In(cls, s[0]) then
      var r := Skip(cls, s[1..]);
      SkipOneMore(cls, s, r);
      r
    else s
  }

  lemma SkipOneMore(cls: Class, s: string, r: string)
    requires s != "" && In(cls, s[0]) && SuffixOf(r, s[1..]) && AllIn(cls, s[1..][..|s| - 1 - |r|])
    ensures SuffixOf(r, s) && AllIn(cls, s[..|s| - |r|])
  {
    hide In;
    SuffixDrop(s, 1, r);
    assert s[..|s| - |r|] == [s[0]] + s[1..][..|s| - 1 - |r|];
  }

  /** Matches p at the front of s; the result is what follows the match. */
  function Eat(p: Pat, s: string): (r: Option<string>)
    ensures r.Some? ==> SuffixOf(r.value, s)
  {
    match p
    case End => Some(s)
    case Lit(t, q) => if t <= s then Eat(q, s[|t|..]) else None
    case One(c, q) => if s != "" && In(c, s[0]) then Eat(q, s[1..]) else None
    case Star(c, q) => Eat(q, Skip(c, s))
    case Maybe(c, q) => Eat(q, if s != "" && In(c, s[0]) then s[1..] else s)
  }

  /** Neither a text of p nor, after it, the text r can begin with a character of cls. */
  predicate Off(p: Pat, r: string, cls: Class) {
    match p
    case End => r == "" || !In(cls, r[0])
    case Lit(t, _) => t != "" && !In(cls, t[0])
    case One(c, _) => Apart(c, cls)
    case Star(c, q) => Apart(c, cls) && Off(q, r, cls)
    case Maybe(c, q) => Apart(c, cls) && Off(q, r, cls)
  }

  /** Taking as much as possible is the only choice, when r follows. */
  predicate Determined(p: Pat, r: string) {
    match p
    case End => true
    case Lit(_, q) => Determined(q, r)
    case One(_, q) => Determined(q, r)
    case Star(c, q) => Off(q, r, c) && Determined(q, r)
    case Maybe(c, q) => Off(q, r, c) && Determined(q, r)
  }

  lemma {:induction false} OffMeans(p: Pat, m: string, r: string, cls: Class)
    requires Off(p, r, cls) && Spells(p, m)
    ensures m + r == "" || !In(cls, (m + r)[0])
  {
    match p
    case End =>
      assert m + r == r;
    case Lit(t, q) =>
    case One(c, q) =>
    case Star(c, q) =>
      var k: nat :| k <= |m| && AllIn(c, m[..k]) && Spells(q, m[k..]);
      if k == 0 {
        assert m[0..] == m;
        OffMeans(q, m, r, cls);
      } else {
        assert m[..k][0] == m[0];
      }
    case Maybe(c, q) =>
      if Spells(q, m) {
        OffMeans(q, m, r, cls);
      }
  }

  lemma {:induction false} SkipAll(cls: Class, a: string, b: string)
    requires AllIn(cls, a) && (b == "" || !In(cls, b[0]))
    ensures Skip(cls, a + b) == b
  {
    if a == "" {
      assert a + b == b;
    } else {
      assert (a + b)[1..] == a[1..] + b;
      SkipAll(cls, a[1..], b);
    }
  }

  /** A piece the first part of p accepts, in front of a text of the rest. */
  predicate Front(p: Pat, a: string) {
    match p
    case End => false
    case Lit(t, _) => a == t
    case One(c, _) => |a| == 1 && In(c, a[0])
    case Star(c, _) => AllIn(c, a)
    case Maybe(c, _) => a == "" || (|a| == 1 && In(c, a[0]))
  }

  /** A text of p, cut at the first piece of p. */
  lemma FrontOf(p: Pat, z: string) returns (a: string, y: string)
    requires Spells(p, z) && !p.End?
    ensures z == a + y && Front(p, a) && Spells(p.rest, y)
  {
    hide In;
    match p
    case Lit(t, q) =>
      a, y := t, z[|t|..];
    case One(c, q) =>
      a, y := [z[0]], z[1..];
    case Star(c, q) =>
      a, y := FrontOfStar(c, q, z);
    case Maybe(c, q) =>
      if Spells(q, z) {
        a, y := "", z;
      } else {
        a, y := [z[0]], z[1..];
      }
  }

  lemma FrontOfStar(c: Class, q: Pat, z: string) returns (a: string, y: string)
    requires Spells(Star(c, q), z)
    ensures z == a + y && AllIn(c, a) && Spells(q, y)
  {
    hide In;
    var k: nat :| k <= |z| && AllIn(c, z[..k]) && Spells(q, z[k..]);
    a, y := z[..k], z[k..];
  }

  lemma Assoc(a: string, b: string, c: string)
    ensures a + b + c == a + (b + c)
  {
  }

  /** One step of the matcher: it takes the piece a and goes on with s. */
  lemma EatStep(p: Pat, a: string, s: string)
    requires Front(p, a)
    requires p.Star? || p.Maybe? ==> s == "" || !In(p.cls, s[0])
    ensures Eat(p, a + s) == Eat(p.rest, s)
  {
    if p.Star? {
      SkipAll(p.cls, a, s);
    } else if a == "" {
      assert a + s == s;
    } else {
      assert (a + s)[|a|..] == s;
    }
  }

  /** Every text of the language is matched, when what follows leaves no choice. */
  lemma {:induction false} EatComplete(p: Pat, m: string, r: string)
    requires Spells(p, m) && Determined(p, r)
    ensures Eat(p, m + r) == Some(r)
  {
    if p.End? {
      assert m + r == r;
    } else {
      var a, y := FrontOf(p, m);
      if p.Star? || p.Maybe? {
        OffMeans(p.rest, y, r, p.cls);
      }
      EatStep(p, a, y + r);
      EatComplete(p.rest, y, r);
      Assoc(a, y, r);
    }
  }

  lemma SpellsLit(t: string, q: Pat, m: string)
    requires Spells(q, m)
    ensures Spells(Lit(t, q), t + m)
  {
    assert (t + m)[|t|..] == m;
  }

  lemma SpellsOne(c: Class, q: Pat, x: char, m: string)
    requires In(c, x) && Spells(q, m)
    ensures Spells(One(c, q), [x] + m) && Spells(Maybe(c, q), [x] + m)
  {
    assert ([x] + m)[1..] == m;
  }

  lemma SpellsStar(c: Class, q: Pat, a: string, m: string)
    requires AllIn(c, a) && Spells(q, m)
    ensures Spells(Star(c, q), a + m)
  {
    assert (a + m)[..|a|] == a && (a + m)[|a|..] == m;
  }

  lemma SpellsFront(p: Pat, a: string, m: string)
    requires Front(p, a) && Spells(p.rest, m)
    ensures Spells(p, a + m)
  {
    match p
    case Lit(t, q) => SpellsLit(t, q, m);
    case One(c, q) => SpellsOne(c, q, a[0], m);
    case Star(c, q) => SpellsStar(c, q, a, m);
    case Maybe(c, q) => if a == "" { assert a + m == m; } else { SpellsOne(c, q, a[0], m); }
  }

  lemma Glue(s: string, a: string, n: string, r: string)
    requires a <= s && s[|a|..] == n + r
    ensures s == a + n + r
  {
    assert s == a + s[|a|..];
  }

  /** What is matched belongs to the language. */
  lemma {:induction false} EatSound(p: Pat, s: string, r: string) returns (m: string)
    requires Eat(p, s) == Some(r)
    ensures s == m + r && Spells(p, m)
  {
    if p.End? {
      assert s == "" + r;
      return "";
    }
    var a: string;
    if {
      case p.Lit? => a := p.text;
      case p.One? => a := [s[0]];
      case p.Star? => a := s[..|s| - |Skip(p.cls, s)|];
      case p.Maybe? => a := if s != "" && In(p.cls, s[0]) then [s[0]] else "";
    }
    assert a <= s;
    var n := EatSound(p.rest, s[|a|..], r);
    Glue(s, a, n, r);
    SpellsFront(p, a, n);
    return a + n;
  }

  /** The matcher and the language agree: r is left over exactly when s is a text of p followed by r. */
  lemma EatExact(p: Pat, s: string, r: string)
    requires Determined(p, r)
    ensures Eat(p, s) == Some(r) <==> exists m :: s == m + r && Spells(p, m)
  {
    if Eat(p, s) == Some(r) {
      var m := EatSound(p, s, r);
    }
    if exists m :: s == m + r && Spells(p, m) {
      var m :| s == m + r && Spells(p, m);
      EatComplete(p, m, r);
    }
  }

  // ---------- a run of characters up to a delimiter ----------

  /** The part of s before the first delimiter. */
  function Before(s: string, d: char): (b: string)
    ensures b <= s && d !in b
    ensures |b| < |s| ==> s[|b|] == d
  {
    if s == "" || s[0] == d then "" else
      var b := Before(s[1..], d);
      [s[0]] + b
  }

  lemma {:induction false} BeforeStops(b: string, d: char, r: string)
    requires d !in b && (r == "" || r[0] == d)
    ensures Before(b + r, d) == b
  {
    if b == "" {
      assert b + r == r;
    } else {
      assert (b + r)[1..] == b[1..] + r;
      BeforeStops(b[1..], d, r);
    }
  }

  /** A non-empty run of characters up to the delimiter d, then the pattern close. */
  function EatRun(d: char, close: Pat, s: string): (r: Option<(string, string)>)
    ensures r.Some? ==> SuffixOf(r.value.1, s)
  {
    var body := Before(s, d);
    if body == "" then None else
    var r := Eat(close, s[|body|..]);
    if r.Some? then
      SuffixDrop(s, |body|, r.value);
      Some((body, r.value))
    else None
  }

  lemma RunFound(d: char, close: Pat, body: string, z: string, r: string)
    requires body != "" && d !in body && Spells(close, z) && z != "" && z[0] == d && Determined(close, r)
    ensures EatRun(d, close, body + (z + r)) == Some((body, r))
  {
    BeforeStops(body, d, z + r);
    assert (body + (z + r))[|body|..] == z + r;
    EatComplete(close, z, r);
  }

  lemma RunSound(d: char, close: Pat, s: string, body: string, r: string) returns (z: string)
    requires EatRun(d, close, s) == Some((body, r))
    ensures s == body + (z + r) && body != "" && d !in body && Spells(close, z)
  {
    hide Eat, Spells;
    z := EatSound(close, s[|body|..], r);
    assert s == body + s[|body|..];
  }

  // ---------- words: a literal, then any white space ----------

  function Word(w: string, q: Pat): Pat {
    Lit(w, Star(Space, q))
  }

  /** p is matched the same way with r behind it, also right after white space. */
  predicate Ready(p: Pat, r: string) {
    Determined(p, r) && Off(p, r, Space)
  }

  predicate Visible(w: string) {
    w != "" && !In(Space, w[0])
  }

  lemma ReadyWord(w: string, q: Pat, r: string)
    requires Visible(w) && Ready(q, r)
    ensures Ready(Word(w, q), r)
  {
  }

  lemma ReadyLast(w: string, r: string)
    requires Visible(w)
    ensures Ready(Lit(w, End), r)
  {
  }

  lemma SpellsWord(w: string, gap: string, q: Pat, m: string)
    requires AllIn(Space, gap) && Spells(q, m)
    ensures Spells(Word(w, q), w + gap + m)
  {
    var t := w + gap + m;
    assert t[|w|..] == gap + m;
    SpellsStar(Space, q, gap, m);
  }

  lemma SpellsLast(w: string)
    ensures Spells(Lit(w, End), w)
  {
    assert w[|w|..] == "";
  }
}
