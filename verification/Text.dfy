/**
  Text operations of Go's strings package that the gateway uses: TrimSpace, Split, Join,
  Replace (first occurrence) and Contains, with the facts the other modules rest on.
*/
module Text {

  datatype Option<+T> = None | Some(value: T)

  // ---------- white space ----------

  /** unicode.IsSpace, the set strings.TrimSpace removes. */
  predicate IsSpace(c: char) {
    c == '\t' || c == '\n' || c == '\U{0B}' || c == '\U{0C}' || c == '\r' || c == ' ' ||
    c == '\U{85}' || c == '\U{A0}' || c == '\U{1680}' || '\U{2000}' <= c <= '\U{200A}' ||
    c == '\U{2028}' || c == '\U{2029}' || c == '\U{202F}' || c == '\U{205F}' || c == '\U{3000}'
  }

  function TrimLeft(s: string): (r: string)
    ensures |r| <= |s| && s[|s| - |r|..] == r
    ensures r != "" ==> !IsSpace(r[0])
  {
    if s != "" && IsSpace(s[0]) then TrimLeft(s[1..]) else s
  }

  function TrimRight(s: string): (r: string)
    ensures r <= s
    ensures r != "" ==> !IsSpace(r[|r| - 1])
  {
    if s != "" && IsSpace(s[|s| - 1]) then TrimRight(s[..|s| - 1]) else s
  }

  function Trim(s: string): (r: string)
    ensures |r| <= |s|
    ensures r != "" ==> !IsSpace(r[0]) && !IsSpace(r[|r| - 1])
  {
    TrimRight(TrimLeft(s))
  }

  /** No white space at either end. */
  predicate Tight(s: string) {
    s != "" ==> !IsSpace(s[0]) && !IsSpace(s[|s| - 1])
  }

  lemma TrimOfTight(s: string)
    requires Tight(s)
    ensures Trim(s) == s
  {
  }

  lemma TrimOfTightLine(s: string)
    requires s != "" && Tight(s)
    ensures Trim(s + "\n") == s
  {
    var t := s + "\n";
    assert TrimLeft(t) == t;
    assert t[..|t| - 1] == s;
    assert TrimRight(t) == TrimRight(s);
  }

  lemma {:induction false} TrimLeftCuts(s: string)
    ensures forall k :: 0 <= k < |s| - |TrimLeft(s)| ==> IsSpace(s[k])
  {
    hide IsSpace;
    if s != "" && IsSpace(s[0]) {
      TrimLeftCuts(s[1..]);
      forall k | 0 <= k < |s| - |TrimLeft(s)| ensures IsSpace(s[k]) {
        assert k > 0 ==> s[k] == s[1..][k - 1];
      }
    }
  }

  lemma {:induction false} TrimRightCuts(s: string)
    ensures forall k :: |TrimRight(s)| <= k < |s| ==> IsSpace(s[k])
  {
    hide IsSpace;
    if s != "" && IsSpace(s[|s| - 1]) {
      TrimRightCuts(s[..|s| - 1]);
    }
  }

  /** Trim cuts off white space at both ends, all of it and nothing else. */
  lemma TrimCuts(s: string) returns (a: string, b: string)
    ensures s == a + Trim(s) + b && Tight(Trim(s))
    ensures (forall k :: 0 <= k < |a| ==> IsSpace(a[k])) && (forall k :: 0 <= k < |b| ==> IsSpace(b[k]))
  {
    hide IsSpace, TrimLeft, TrimRight;
    var l, t := TrimLeft(s), Trim(s);
    a, b := s[..|s| - |l|], l[|t|..];
    TrimLeftCuts(s);
    TrimRightCuts(l);
    assert l == t + b;
    assert s == a + l;
  }

  /** Everything Trim keeps is a contiguous piece of its argument. */
  lemma {:induction false} TrimIsSlice(s: string) returns (i: nat, j: nat)
    ensures i <= j <= |s| && Trim(s) == s[i..j]
  {
    var l := TrimLeft(s);
    i := |s| - |l|;
    j := i + |Trim(s)|;
    assert Trim(s) == l[..|Trim(s)|];
  }

  // ---------- occurrences ----------

  predicate OccursAt(s: string, p: string, k: nat) {
    k + |p| <= |s| && s[k..k + |p|] == p
  }

  /** strings.Index: the first occurrence. */
  function IndexOf(s: string, p: string): (r: Option<nat>)
    ensures r.Some? ==> OccursAt(s, p, r.value) && forall k: nat :: k < r.value ==> !OccursAt(s, p, k)
    ensures r.None? ==> forall k: nat :: !OccursAt(s, p, k)
  {
    if p <= s then
      assert s[0..0 + |p|] == p;
      Some(0)
    else if s == "" then
      None
    else
      var r := IndexOf(s[1..], p);
      assert forall k: nat :: 0 < k ==> (OccursAt(s, p, k) <==> OccursAt(s[1..], p, k - 1)) by {
        forall k: nat | 0 < k ensures OccursAt(s, p, k) <==> OccursAt(s[1..], p, k - 1) {
          if k + |p| <= |s| {
            assert s[k..k + |p|] == s[1..][k - 1..k - 1 + |p|];
          }
        }
      }
      assert !OccursAt(s, p, 0);
      if r.Some? then Some(r.value + 1) else None
  }

  predicate Contains(s: string, p: string) {
    IndexOf(s, p).Some?
  }

  /** strings.Replace(s, old, new, 1). */
  function ReplaceFirst(s: string, old_: string, new_: string): string {
    var k := IndexOf(s, old_);
    if k.None? then s else s[..k.value] + new_ + s[k.value + |old_|..]
  }

  /** At k begins the word w, each letter as in w or in its other spelling. */
  predicate AnyCaseAt(s: string, w: string, other: string, k: nat)
    requires |w| == |other|
  {
    k + |w| <= |s| && forall i :: 0 <= i < |w| ==> s[k + i] == w[i] || s[k + i] == other[i]
  }

  /** A word in small letters occurs in the lowered text exactly when it occurs in any mix of cases. */
  lemma ContainsLower(s: string, w: string, upper: string)
    requires |w| == |upper| && forall i :: 0 <= i < |w| ==> 'a' <= w[i] <= 'z' && upper[i] as int == w[i] as int - 32
    ensures Contains(Lower(s), w) <==> exists k: nat :: AnyCaseAt(s, w, upper, k)
  {
    hide IndexOf;
    var l := Lower(s);
    forall k: nat ensures OccursAt(l, w, k) <==> AnyCaseAt(s, w, upper, k) {
      if k + |w| <= |s| {
        assert forall i :: 0 <= i < |w| ==> (l[k + i] == w[i] <==> s[k + i] == w[i] || s[k + i] == upper[i]);
        var part := l[k..k + |w|];
        assert forall i :: 0 <= i < |w| ==> part[i] == l[k + i];
      }
    }
    var r := IndexOf(l, w);
    if r.Some? {
      assert OccursAt(l, w, r.value);
    }
  }

  /** ASCII part of strings.ToLower, all that "csv" and "arrow" need. */
  function Lower(s: string): string {
    seq(|s|, i requires 0 <= i < |s| => if 'A' <= s[i] <= 'Z' then (s[i] as int + 32) as char else s[i])
  }

  // ---------- lines ----------

  /** strings.Split with a one-character separator. */
  function SplitOn(s: string, sep: char): (r: seq<string>)
    ensures |r| >= 1
    ensures forall i :: 0 <= i < |r| ==> sep !in r[i]
  {
    if s == "" then [""]
    else
      var rest := SplitOn(s[1..], sep);
      if s[0] == sep then [""] + rest else [[s[0]] + rest[0]] + rest[1..]
  }

  /** strings.Join. */
  function JoinWith(parts: seq<string>, sep: char): string {
    if parts == [] then ""
    else if |parts| == 1 then parts[0]
    else parts[0] + [sep] + JoinWith(parts[1..], sep)
  }

  lemma {:induction false} SplitOfPiece(a: string, sep: char)
    requires sep !in a
    ensures SplitOn(a, sep) == [a]
  {
    if a != "" {
      SplitOfPiece(a[1..], sep);
      assert [a[0]] + a[1..] == a;
    }
  }

  lemma {:induction false} SplitAtSeparator(a: string, b: string, sep: char)
    requires sep !in a
    ensures SplitOn(a + [sep] + b, sep) == [a] + SplitOn(b, sep)
  {
    var t := a + [sep] + b;
    if a == "" {
      assert t[1..] == b;
    } else {
      SplitAtSeparator(a[1..], b, sep);
      assert t[1..] == a[1..] + [sep] + b;
      assert [a[0]] + a[1..] == a;
    }
  }

  /** Splitting what was joined gives the pieces back. */
  lemma {:induction false} SplitOfJoin(parts: seq<string>, sep: char)
    requires parts != []
    requires forall i :: 0 <= i < |parts| ==> sep !in parts[i]
    ensures SplitOn(JoinWith(parts, sep), sep) == parts
  {
    if |parts| == 1 {
      SplitOfPiece(parts[0], sep);
    } else {
      SplitOfJoin(parts[1..], sep);
      SplitAtSeparator(parts[0], JoinWith(parts[1..], sep), sep);
      assert [parts[0]] + parts[1..] == parts;
    }
  }

  /** Joining what was split gives the text back. */
  lemma {:induction false} JoinOfSplit(s: string, sep: char)
    ensures JoinWith(SplitOn(s, sep), sep) == s
  {
    if s != "" {
      JoinOfSplit(s[1..], sep);
      var rest := SplitOn(s[1..], sep);
      if s[0] == sep {
        assert ([""] + rest)[1..] == rest;
        assert s == "" + [sep] + s[1..];
      } else {
        var r := [[s[0]] + rest[0]] + rest[1..];
        assert r[1..] == rest[1..];
        assert s == [s[0]] + s[1..];
        if |rest| > 1 {
          assert JoinWith(r, sep) == [s[0]] + (rest[0] + [sep] + JoinWith(rest[1..], sep));
        }
      }
    }
  }

  lemma EdgesOf(a: string, b: string, c: string)
    requires a != "" && c != ""
    ensures var t := a + b + c; t != "" && t[0] == a[0] && t[|t| - 1] == c[|c| - 1]
  {
  }

  /** The edges of a joined text are the edges of its first and last pieces. */
  lemma {:induction false} JoinEdges(parts: seq<string>, sep: char)
    requires parts != []
    requires forall i :: 0 <= i < |parts| ==> parts[i] != ""
    ensures var t := JoinWith(parts, sep);
            t != "" && t[0] == parts[0][0] && t[|t| - 1] == parts[|parts| - 1][|parts[|parts| - 1]| - 1]
  {
    if |parts| > 1 {
      var p := parts[1..];
      assert p[|p| - 1] == parts[|parts| - 1];
      JoinEdges(p, sep);
      EdgesOf(parts[0], [sep], JoinWith(p, sep));
    }
  }
}
