/** Python's string primitives used by the service, over `seq<char>`:
    `str.isspace`, `str.strip()`, `str.startswith`, `str.split(sep)` for a
    one-character separator, and `sep.join(parts)`. */
module Text {

  type String = seq<char>

  /** Python's `str.isspace` for one character: the characters whose
      bidirectional class is WS, B or S, or whose category is Zs. */
  predicate IsSpace(c: char) {
    var n := c as int;
    || (0x09 <= n <= 0x0D)
    || (0x1C <= n <= 0x20)
    || n == 0x85
    || n == 0xA0
    || n == 0x1680
    || (0x2000 <= n <= 0x200A)
    || n == 0x2028
    || n == 0x2029
    || n == 0x202F
    || n == 0x205F
    || n == 0x3000
  }

  /** Every character is whitespace; `s.strip()` is empty exactly then. */
  predicate AllSpace(s: String) {
    forall i :: 0 <= i < |s| ==> IsSpace(s[i])
  }

  /** Neither end of `s` is whitespace. */
  predicate IsStripped(s: String) {
    |s| == 0 || (!IsSpace(s[0]) && !IsSpace(s[|s| - 1]))
  }

  predicate StartsWith(s: String, prefix: String) {
    |prefix| <= |s| && s[..|prefix|] == prefix
  }

  /** `s.lstrip()`: what is left after dropping leading whitespace. */
  function TrimStart(s: String): (r: String)
    ensures |r| <= |s|
    ensures r == [] || !IsSpace(r[0])
  {
    if |s| > 0 && IsSpace(s[0]) then TrimStart(s[1..]) else s
  }

  /** `s.rstrip()`: what is left after dropping trailing whitespace. */
  function TrimEnd(s: String): (r: String)
    ensures |r| <= |s|
    ensures r == [] || !IsSpace(r[|r| - 1])
  {
    if |s| > 0 && IsSpace(s[|s| - 1]) then TrimEnd(s[..|s| - 1]) else s
  }

  /** `lstrip` removes a whitespace prefix and keeps the rest as it is. */
  lemma {:induction false} TrimStartShape(s: String)
    ensures TrimStart(s) == s[|s| - |TrimStart(s)|..]
    ensures AllSpace(s[..|s| - |TrimStart(s)|])
    decreases |s|
  {
    if |s| > 0 && IsSpace(s[0]) {
      var r := TrimStart(s[1..]);
      TrimStartShape(s[1..]);
      assert s[..|s| - |r|] == [s[0]] + s[1..][..|s| - 1 - |r|];
    }
  }

  /** `rstrip` removes a whitespace suffix and keeps the rest as it is. */
  lemma {:induction false} TrimEndShape(s: String)
    ensures TrimEnd(s) == s[..|TrimEnd(s)|]
    ensures AllSpace(s[|TrimEnd(s)|..])
    decreases |s|
  {
    if |s| > 0 && IsSpace(s[|s| - 1]) {
      var r := TrimEnd(s[..|s| - 1]);
      TrimEndShape(s[..|s| - 1]);
      assert s[|r|..] == s[..|s| - 1][|r|..] + [s[|s| - 1]];
    }
  }

  /** `s.strip()`: the infix of `s` between a whitespace prefix and a
      whitespace suffix that itself neither starts nor ends with whitespace. */
  function Strip(s: String): (r: String)
    ensures IsStripped(r)
    ensures r == [] <==> AllSpace(s)
  {
    var t := TrimStart(s);
    var r := TrimEnd(t);
    TrimStartShape(s);
    TrimEndShape(t);
    StripShape(s, t, r);
    r
  }

  /** What `strip` keeps: an infix of the text between a whitespace prefix
      and a whitespace suffix, so it holds no character the text lacks. */
  lemma StripIsInfix(s: String)
    ensures exists i, j :: 0 <= i <= j <= |s| && Strip(s) == s[i..j] && AllSpace(s[..i]) && AllSpace(s[j..])
    ensures multiset(Strip(s)) <= multiset(s)
  {
    TrimStartShape(s);
    TrimEndShape(TrimStart(s));
    StripShape(s, TrimStart(s), TrimEnd(TrimStart(s)));
  }

  /** The facts behind `Strip`'s contract, with the witnesses named. */
  lemma StripShape(s: String, t: String, r: String)
    requires |t| <= |s| && t == s[|s| - |t|..] && AllSpace(s[..|s| - |t|])
    requires |r| <= |t| && r == t[..|r|] && AllSpace(t[|r|..])
    requires r == [] || (!IsSpace(r[0]) && !IsSpace(r[|r| - 1]))
    ensures var i, j := |s| - |t|, |s| - |t| + |r|;
      0 <= i <= j <= |s| && r == s[i..j] && AllSpace(s[..i]) && AllSpace(s[j..])
    ensures multiset(r) <= multiset(s)
    ensures r == [] <==> AllSpace(s)
  {
    var i := |s| - |t|;
    var j := i + |r|;
    InfixOfInfix(s, t, r);
    var pre, post := s[..i], s[j..];
    assert s == pre + r + post;
    assert multiset(s) == multiset(pre) + multiset(r) + multiset(post);
    AllSpaceConcat(pre, r, post);
    if r != [] {
      assert !IsSpace(r[0]);
    }
  }

  lemma InfixOfInfix(s: String, t: String, r: String)
    requires |t| <= |s| && t == s[|s| - |t|..]
    requires |r| <= |t| && r == t[..|r|]
    ensures r == s[|s| - |t|..|s| - |t| + |r|]
    ensures t[|r|..] == s[|s| - |t| + |r|..]
  {
  }

  lemma AllSpaceConcat(a: String, b: String, c: String)
    ensures AllSpace(a + b + c) <==> AllSpace(a) && AllSpace(b) && AllSpace(c)
  {
    var s := a + b + c;
    if AllSpace(a) && AllSpace(b) && AllSpace(c) {
      forall k | 0 <= k < |s| ensures IsSpace(s[k]) {
        if k < |a| { assert s[k] == a[k]; }
        else if k < |a| + |b| { assert s[k] == b[k - |a|]; }
        else { assert s[k] == c[k - |a| - |b|]; }
      }
    }
    if AllSpace(s) {
      forall k | 0 <= k < |a| ensures IsSpace(a[k]) { assert s[k] == a[k]; }
      forall k | 0 <= k < |b| ensures IsSpace(b[k]) { assert s[|a| + k] == b[k]; }
      forall k | 0 <= k < |c| ensures IsSpace(c[k]) { assert s[|a| + |b| + k] == c[k]; }
    }
  }

  /** A whitespace prefix in front of a text that does not start with
      whitespace is exactly what `lstrip` removes. */
  lemma {:induction false} TrimStartOfSpaces(a: String, t: String)
    requires AllSpace(a)
    requires t == [] || !IsSpace(t[0])
    ensures TrimStart(a + t) == t
    decreases |a|
  {
    if a == [] {
      assert a + t == t;
    } else {
      assert (a + t)[1..] == a[1..] + t;
      TrimStartOfSpaces(a[1..], t);
    }
  }

  lemma {:induction false} TrimEndOfSpaces(t: String, b: String)
    requires AllSpace(b)
    requires t == [] || !IsSpace(t[|t| - 1])
    ensures TrimEnd(t + b) == t
    decreases |b|
  {
    if b == [] {
      assert t + b == t;
    } else {
      assert (t + b)[..|t + b| - 1] == t + b[..|b| - 1];
      TrimEndOfSpaces(t, b[..|b| - 1]);
    }
  }

  /** `strip` is determined by its characterisation: whatever stands between
      a whitespace prefix and a whitespace suffix, and has no whitespace at
      either end, is the stripped text. */
  lemma StripUnique(a: String, r: String, b: String)
    requires AllSpace(a) && AllSpace(b) && IsStripped(r)
    ensures Strip(a + r + b) == r
  {
    if r == [] {
      assert AllSpace(a + r + b) by {
        assert a + r + b == a + b;
      }
    } else {
      assert a + r + b == a + (r + b);
      TrimStartOfSpaces(a, r + b);
      TrimEndOfSpaces(r, b);
    }
  }

  /** Stripping twice is stripping once. */
  lemma StripIdempotent(s: String)
    ensures Strip(Strip(s)) == Strip(s)
  {
    var r := Strip(s);
    assert [] + r + [] == r;
    StripUnique([], r, []);
  }

  /** A text that starts with a non-whitespace character keeps it as the
      first character of its stripped form. */
  lemma StripKeepsFirst(s: String)
    requires |s| > 0 && !IsSpace(s[0])
    ensures |Strip(s)| > 0 && Strip(s)[0] == s[0]
  {
    var r := Strip(s);
    StripIsInfix(s);
    var i, j :| 0 <= i <= j <= |s| && r == s[i..j] && AllSpace(s[..i]) && AllSpace(s[j..]);
    assert !AllSpace(s) by {
      assert !IsSpace(s[0]);
    }
  }

  /** `s.split(sep)` for a one-character separator: the maximal
      separator-free pieces, always at least one (`"".split(sep) == [""]`). */
  function Split(s: String, sep: char): (r: seq<String>)
    ensures |r| == Count(s, sep) + 1
    ensures forall i :: 0 <= i < |r| ==> sep !in r[i]
    decreases |s|
  {
    if |s| == 0 then
      [[]]
    else
      var rest := Split(s[1..], sep);
      if s[0] == sep then
        [[]] + rest
      else
        [[s[0]] + rest[0]] + rest[1..]
  }

  /** `s.count(c)`: how many times `c` occurs in `s`. */
  function Count(s: String, c: char): nat
  {
    if |s| == 0 then 0 else (if s[0] == c then 1 else 0) + Count(s[1..], c)
  }

  /** `sep.join(parts)`. */
  function Join(parts: seq<String>, sep: String): String
  {
    if |parts| == 0 then []
    else if |parts| == 1 then parts[0]
    else parts[0] + sep + Join(parts[1..], sep)
  }

  /** Joining with a piece in front adds that piece and one separator. */
  lemma JoinCons(x: String, parts: seq<String>, sep: String)
    requires |parts| >= 1
    ensures Join([x] + parts, sep) == x + sep + Join(parts, sep)
  {
    assert ([x] + parts)[1..] == parts;
  }

  /** Extending the first piece extends the join at its front. */
  lemma JoinExtendFirst(c: char, parts: seq<String>, sep: String)
    requires |parts| >= 1
    ensures Join([[c] + parts[0]] + parts[1..], sep) == [c] + Join(parts, sep)
  {
    if |parts| > 1 {
      JoinCons([c] + parts[0], parts[1..], sep);
      JoinCons(parts[0], parts[1..], sep);
      assert parts == [parts[0]] + parts[1..];
    } else {
      assert [[c] + parts[0]] + parts[1..] == [[c] + parts[0]];
    }
  }

  /** Joining the pieces of a split with the separator gives back the text. */
  lemma {:induction false} JoinSplit(s: String, sep: char)
    ensures Join(Split(s, sep), [sep]) == s
    decreases |s|
  {
    if |s| > 0 {
      var rest := Split(s[1..], sep);
      JoinSplit(s[1..], sep);
      if s[0] == sep {
        assert Split(s, sep) == [[]] + rest;
        JoinCons([], rest, [sep]);
      } else {
        assert Split(s, sep) == [[s[0]] + rest[0]] + rest[1..];
        JoinExtendFirst(s[0], rest, [sep]);
      }
      assert s == [s[0]] + s[1..];
    }
  }

  /** Splitting a text whose first piece `a` holds no separator. */
  lemma {:induction false} SplitAfterPiece(a: String, t: String, sep: char)
    requires sep !in a
    ensures Split(a + t, sep) == [a + Split(t, sep)[0]] + Split(t, sep)[1..]
    decreases |a|
  {
    if a != [] {
      assert (a + t)[1..] == a[1..] + t;
      SplitAfterPiece(a[1..], t, sep);
      assert [a[0]] + (a[1..] + Split(t, sep)[0]) == a + Split(t, sep)[0];
    } else {
      var p := Split(t, sep);
      assert a + t == t;
      assert a + p[0] == p[0];
      assert p == [p[0]] + p[1..];
    }
  }

  /** Splitting a join of separator-free pieces gives back the pieces. */
  lemma {:induction false} SplitJoin(parts: seq<String>, sep: char)
    requires |parts| >= 1
    requires forall i :: 0 <= i < |parts| ==> sep !in parts[i]
    ensures Split(Join(parts, [sep]), sep) == parts
    decreases |parts|
  {
    if |parts| == 1 {
      SplitAfterPiece(parts[0], [], sep);
      assert parts[0] + [] == parts[0];
    } else {
      var tail := Join(parts[1..], [sep]);
      SplitJoin(parts[1..], sep);
      assert parts[0] + [sep] + tail == parts[0] + ([sep] + tail);
      SplitAfterPiece(parts[0], [sep] + tail, sep);
      assert ([sep] + tail)[1..] == tail;
      assert Split([sep] + tail, sep) == [[]] + Split(tail, sep);
      assert parts[0] + [] == parts[0];
      assert parts == [parts[0]] + parts[1..];
    }
  }

  /** Where piece `i` starts in `Join(parts, sep)`: the lengths of the
      pieces before it, each followed by one separator. */
  function Offset(parts: seq<String>, sep: String, i: nat): nat
    requires i <= |parts|
  {
    if i == 0 then 0 else |parts[0]| + |sep| + Offset(parts[1..], sep, i - 1)
  }

  lemma {:induction false} JoinLength(parts: seq<String>, sep: String)
    requires |parts| >= 1
    ensures |Join(parts, sep)| + |sep| == Offset(parts, sep, |parts|)
    decreases |parts|
  {
    if |parts| > 1 {
      JoinLength(parts[1..], sep);
    }
  }

  /** Piece `i` stands at its offset in `joined`. */
  predicate PieceAt(joined: String, parts: seq<String>, sep: String, i: nat)
    requires i < |parts|
  {
    var o := Offset(parts, sep, i);
    o + |parts[i]| <= |joined| && joined[o..o + |parts[i]|] == parts[i]
  }

  /** Exactly `sep` stands between piece `i` and piece `i + 1` in `joined`. */
  predicate SeparatorAfter(joined: String, parts: seq<String>, sep: String, i: nat)
    requires i + 1 < |parts|
  {
    var e := Offset(parts, sep, i) + |parts[i]|;
    e <= Offset(parts, sep, i + 1) <= |joined| && joined[e..Offset(parts, sep, i + 1)] == sep
  }

  /** A slice behind a prefix of length `|x|` is a slice of what follows. */
  lemma SliceAfter(x: String, y: String, lo: nat, hi: nat)
    requires lo <= hi <= |y|
    ensures (x + y)[|x| + lo..|x| + hi] == y[lo..hi]
  {
  }

  lemma {:induction false} JoinPiece(parts: seq<String>, sep: String, i: nat)
    requires i < |parts|
    ensures PieceAt(Join(parts, sep), parts, sep, i)
    decreases i
  {
    var r := Join(parts, sep);
    if |parts| > 1 {
      var tail := parts[1..];
      var x := parts[0] + sep;
      assert r == x + Join(tail, sep);
      if i > 0 {
        var o := Offset(tail, sep, i - 1);
        JoinPiece(tail, sep, i - 1);
        assert tail[i - 1] == parts[i];
        SliceAfter(x, Join(tail, sep), o, o + |parts[i]|);
      } else {
        assert r == parts[0] + (sep + Join(tail, sep));
      }
    }
  }

  lemma {:induction false} JoinSeparator(parts: seq<String>, sep: String, i: nat)
    requires i + 1 < |parts|
    ensures SeparatorAfter(Join(parts, sep), parts, sep, i)
    decreases i
  {
    var r := Join(parts, sep);
    var tail := parts[1..];
    var x := parts[0] + sep;
    assert r == x + Join(tail, sep);
    if i > 0 {
      var o := Offset(tail, sep, i - 1);
      JoinSeparator(tail, sep, i - 1);
      assert tail[i - 1] == parts[i];
      SliceAfter(x, Join(tail, sep), o + |parts[i]|, Offset(tail, sep, i));
    } else {
      assert r == parts[0] + sep + Join(tail, sep);
    }
  }

  /** The layout of a join: joining no pieces gives the empty text;
      otherwise the pieces appear in order, each at its offset, consecutive
      pieces are separated by exactly `sep`, and nothing else is added. */
  lemma JoinLayout(parts: seq<String>, sep: String)
    ensures parts == [] ==> Join(parts, sep) == []
    ensures parts != [] ==> |Join(parts, sep)| + |sep| == Offset(parts, sep, |parts|)
    ensures forall i :: 0 <= i < |parts| ==> PieceAt(Join(parts, sep), parts, sep, i)
    ensures forall i :: 0 <= i < |parts| - 1 ==> SeparatorAfter(Join(parts, sep), parts, sep, i)
  {
    if parts != [] {
      JoinLength(parts, sep);
      forall i | 0 <= i < |parts| ensures PieceAt(Join(parts, sep), parts, sep, i) {
        JoinPiece(parts, sep, i);
      }
      forall i | 0 <= i < |parts| - 1 ensures SeparatorAfter(Join(parts, sep), parts, sep, i) {
        JoinSeparator(parts, sep, i);
      }
    }
  }
}
