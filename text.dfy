/** The few JavaScript string operations the extension relies on, stated over
    `seq<char>`: `String.prototype.split` with a set of one-character
    separators, its inverse `Join` for a single separator, `String.prototype.trim`,
    and the part of a string that the regular-expression `.` can reach. */
module Text {

  /** ECMAScript LineTerminator: the characters a regular-expression `.` does
      not match when the `s` flag is absent. */
  const LineTerminators: set<char> := {'\n', '\r', '\U{2028}', '\U{2029}'}

  predicate IsLineTerminator(c: char) {
    c in LineTerminators
  }

  /** ECMAScript WhiteSpace (tab, vertical tab, form feed, the byte-order mark
      and the Unicode space separators) together with LineTerminator: exactly
      what `String.prototype.trim` removes from both ends. */
  predicate IsTrimmable(c: char) {
    || c == '\t' || c == '\U{000B}' || c == '\U{000C}' || c == ' '
    || c == '\U{00A0}' || c == '\U{FEFF}' || c == '\U{1680}'
    || ('\U{2000}' <= c && c <= '\U{200A}')
    || c == '\U{202F}' || c == '\U{205F}' || c == '\U{3000}'
    || IsLineTerminator(c)
  }

  predicate AllTrimmable(s: string) {
    forall i :: 0 <= i < |s| ==> IsTrimmable(s[i])
  }

  /** Neither end of `s` is a character `trim` would remove. */
  predicate IsTrimmed(s: string) {
    s == [] || (!IsTrimmable(s[0]) && !IsTrimmable(s[|s| - 1]))
  }

  /** No character of `s` is one of `seps`. */
  predicate Avoids(s: string, seps: set<char>) {
    forall i :: 0 <= i < |s| ==> s[i] !in seps
  }

  /** `s.split(sep)` where `sep` matches exactly one character of `seps`: the
      maximal separator-free pieces of `s`, including the empty pieces before,
      between and after separators ("".split gives one empty piece). */
  function Split(s: string, seps: set<char>): (r: seq<string>)
    ensures |r| >= 1
    ensures forall k :: 0 <= k < |r| ==> Avoids(r[k], seps)
    decreases |s|
  {
    if s == [] then [[]]
    else if s[0] in seps then [[]] + Split(s[1..], seps)
    else
      var rest := Split(s[1..], seps);
      [[s[0]] + rest[0]] + rest[1..]
  }

  /** The first piece is the longest separator-free prefix. */
  lemma {:induction false} SplitHead(s: string, seps: set<char>)
    ensures var h := Split(s, seps)[0];
      |h| <= |s| && h == s[..|h|] && (|h| < |s| ==> s[|h|] in seps)
    decreases |s|
  {
    if s != [] && s[0] !in seps {
      SplitHead(s[1..], seps);
    }
  }

  /** The last piece is the longest separator-free suffix. */
  lemma {:induction false} SplitLast(s: string, seps: set<char>)
    ensures var r := Split(s, seps); var t := r[|r| - 1];
      |t| <= |s| && t == s[|s| - |t|..] && (|t| < |s| ==> s[|s| - |t| - 1] in seps)
    decreases |s|
  {
    if s != [] {
      SplitLast(s[1..], seps);
      SplitWhole(s[1..], seps);
      var rest := Split(s[1..], seps);
      if s[0] !in seps && |rest| == 1 {
        assert s == [s[0]] + s[1..];
      }
    }
  }

  /** There is a single piece exactly when no separator occurs, and it is then the whole string. */
  lemma {:induction false} SplitWhole(s: string, seps: set<char>)
    ensures |Split(s, seps)| == 1 <==> Avoids(s, seps)
    ensures |Split(s, seps)| == 1 ==> Split(s, seps)[0] == s
    decreases |s|
  {
    if s != [] {
      SplitWhole(s[1..], seps);
      if s[0] !in seps {
        assert s == [s[0]] + s[1..];
        assert Avoids(s, seps) <==> Avoids(s[1..], seps);
      }
    }
  }

  /** `parts.join(sep)`. */
  function Join(parts: seq<string>, sep: char): (r: string)
    requires |parts| >= 1
    decreases |parts|
  {
    if |parts| == 1 then parts[0] else parts[0] + [sep] + Join(parts[1..], sep)
  }

  /** Putting a non-separator in front of a split lengthens its first piece. */
  lemma ConsPiece(c: char, ra: seq<string>, rb: seq<string>)
    requires |ra| >= 1
    ensures [[c] + (ra + rb)[0]] + (ra + rb)[1..] == ([[c] + ra[0]] + ra[1..]) + rb
  {
    assert (ra + rb)[0] == ra[0];
    assert (ra + rb)[1..] == ra[1..] + rb;
  }

  /** Splitting at a separator splits the two sides independently. */
  lemma {:induction false} SplitAtSeparator(a: string, b: string, sep: char, seps: set<char>)
    requires sep in seps
    ensures Split(a + [sep] + b, seps) == Split(a, seps) + Split(b, seps)
    decreases |a|
  {
    var s := a + [sep] + b;
    if a == [] {
      assert s[0] == sep && s[1..] == b;
    } else {
      assert s[0] == a[0] && s[1..] == a[1..] + [sep] + b;
      SplitAtSeparator(a[1..], b, sep, seps);
      var ra, rb := Split(a[1..], seps), Split(b, seps);
      if a[0] in seps {
        assert Split(s, seps) == [[]] + (ra + rb);
        assert Split(a, seps) == [[]] + ra;
      } else {
        assert Split(s, seps) == [[a[0]] + (ra + rb)[0]] + (ra + rb)[1..];
        assert Split(a, seps) == [[a[0]] + ra[0]] + ra[1..];
        ConsPiece(a[0], ra, rb);
      }
    }
  }

  /** `split` undoes `join` when no piece contains the separator. */
  lemma {:induction false} SplitJoin(parts: seq<string>, sep: char)
    requires |parts| >= 1
    requires forall k :: 0 <= k < |parts| ==> Avoids(parts[k], {sep})
    ensures Split(Join(parts, sep), {sep}) == parts
    decreases |parts|
  {
    SplitWhole(parts[0], {sep});
    if |parts| > 1 {
      SplitJoin(parts[1..], sep);
      SplitAtSeparator(parts[0], Join(parts[1..], sep), sep, {sep});
      assert parts == [parts[0]] + parts[1..];
    }
  }

  /** `join` undoes `split`: no character of the input is lost or moved. */
  lemma {:induction false} JoinSplit(s: string, sep: char)
    ensures Join(Split(s, {sep}), sep) == s
    decreases |s|
  {
    if s != [] {
      JoinSplit(s[1..], sep);
      var rest := Split(s[1..], {sep});
      if s[0] != sep {
        var r := Split(s, {sep});
        assert r == [[s[0]] + rest[0]] + rest[1..];
        if |rest| > 1 {
          assert r[1..] == rest[1..];
          assert Join(rest, sep) == rest[0] + [sep] + Join(rest[1..], sep);
          assert Join(r, sep) == ([s[0]] + rest[0]) + [sep] + Join(rest[1..], sep);
        }
        assert s == [s[0]] + s[1..];
      } else {
        assert Split(s, {sep})[1..] == rest;
        assert s == [sep] + s[1..];
      }
    }
  }

  /** The part of `s` before its first line terminator: what a
      regular-expression `.*` anchored at the start can range over. */
  function FirstLine(s: string): (r: string)
    ensures |r| <= |s| && r == s[..|r|]
    ensures forall i :: 0 <= i < |r| ==> !IsLineTerminator(r[i])
    ensures |r| < |s| ==> IsLineTerminator(s[|r|])
  {
    SplitHead(s, LineTerminators);
    Split(s, LineTerminators)[0]
  }

  /** A prefix with no line terminator lies inside the first line. */
  lemma FirstLineCovers(s: string, n: nat)
    requires n <= |s|
    requires forall i :: 0 <= i < n ==> !IsLineTerminator(s[i])
    ensures n <= |FirstLine(s)|
  {
  }

  /** `trimStart`: drops leading trimmable characters. */
  function TrimStart(s: string): (r: string)
    ensures |r| <= |s| && r == s[|s| - |r|..]
    ensures AllTrimmable(s[..|s| - |r|])
    ensures r == [] || !IsTrimmable(r[0])
    decreases |s|
  {
    if s != [] && IsTrimmable(s[0]) then
      var r := TrimStart(s[1..]);
      assert s[..|s| - |r|] == [s[0]] + s[1..][..|s| - 1 - |r|];
      r
    else s
  }

  /** `trimEnd`: drops trailing trimmable characters. */
  function TrimEnd(s: string): (r: string)
    ensures |r| <= |s| && r == s[..|r|]
    ensures AllTrimmable(s[|r|..])
    ensures r == [] || !IsTrimmable(r[|r| - 1])
    decreases |s|
  {
    if s != [] && IsTrimmable(s[|s| - 1]) then
      var r := TrimEnd(s[..|s| - 1]);
      assert s[|r|..] == s[..|s| - 1][|r|..] + [s[|s| - 1]];
      r
    else s
  }

  /** `String.prototype.trim`. */
  function Trim(s: string): (r: string)
    ensures IsTrimmed(r)
    ensures |r| <= |s|
    ensures AllTrimmable(s) ==> r == []
  {
    TrimEnd(TrimStart(s))
  }

  lemma {:induction false} TrimStartPadded(a: string, y: string)
    requires AllTrimmable(a)
    requires y == [] || !IsTrimmable(y[0])
    ensures TrimStart(a + y) == y
    decreases |a|
  {
    if a != [] {
      assert (a + y)[0] == a[0] && (a + y)[1..] == a[1..] + y;
      TrimStartPadded(a[1..], y);
    }
  }

  lemma {:induction false} TrimEndPadded(y: string, b: string)
    requires AllTrimmable(b)
    requires y == [] || !IsTrimmable(y[|y| - 1])
    ensures TrimEnd(y + b) == y
    decreases |b|
  {
    if b != [] {
      var s := y + b;
      assert s[|s| - 1] == b[|b| - 1] && s[..|s| - 1] == y + b[..|b| - 1];
      TrimEndPadded(y, b[..|b| - 1]);
    } else {
      assert y + b == y;
    }
  }

  /** `trim` removes exactly a trimmable padding on either side of a trimmed
      string, so it recovers that string. */
  lemma TrimPadded(a: string, x: string, b: string)
    requires AllTrimmable(a) && AllTrimmable(b) && IsTrimmed(x)
    ensures Trim(a + x + b) == x
  {
    if x == [] {
      assert AllTrimmable(a + x + b);
    } else {
      assert a + x + b == a + (x + b);
      TrimStartPadded(a, x + b);
      TrimEndPadded(x, b);
    }
  }

  /** Trimming twice is trimming once. */
  lemma TrimIdempotent(s: string)
    ensures Trim(Trim(s)) == Trim(s)
  {
    var t := Trim(s);
    assert t == [] + t + [];
    TrimPadded([], t, []);
  }
}
