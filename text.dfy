/** The string operations of Python that the bot relies on: `str.split`, `str.join`,
    `str.replace`, `str()` of a non-negative int and `int()` of a numeral, stated on
    `string` (a `seq<char>`). `str.startswith(p)` is Dafny's prefix test `p <= s`. */
module Text {
  import opened Wrappers

  predicate IsDigit(c: char) { '0' <= c <= '9' }

  predicate AllDigits(s: string) { forall i :: 0 <= i < |s| ==> IsDigit(s[i]) }

  function DigitChar(d: nat): (c: char)
    requires d < 10
    ensures IsDigit(c) && c as int - '0' as int == d
  {
    ('0' as int + d) as char
  }

  /** The value of a numeral of ASCII decimal digits, as Python's `int()` reads it. */
  function DigitsValue(s: string): nat
    requires AllDigits(s)
  {
    if s == [] then 0 else DigitsValue(s[..|s| - 1]) * 10 + (s[|s| - 1] as int - '0' as int)
  }

  /** Python's `str(n)` for a non-negative integer: the shortest decimal numeral of `n`. */
  function NatToString(n: nat): (r: string)
    ensures |r| > 0 && AllDigits(r)
    ensures |r| > 1 ==> r[0] != '0'
  {
    if n < 10 then [DigitChar(n)] else NatToString(n / 10) + [DigitChar(n % 10)]
  }

  /** Reading back what `str(n)` wrote gives `n`. */
  lemma {:induction false} NatToStringRoundTrip(n: nat)
    ensures DigitsValue(NatToString(n)) == n
  {
    var s := NatToString(n);
    if n >= 10 {
      NatToStringRoundTrip(n / 10);
      assert s[..|s| - 1] == NatToString(n / 10);
    } else {
      assert s[..|s| - 1] == [];
    }
  }

  /** Python's `int(s)` restricted to what a button's callback can carry: an optional sign
      followed by at least one ASCII digit. Anything else is the `ValueError` case. */
  function ParseInt(s: string): (r: Option<int>)
    ensures AllDigits(s) && s != [] ==> r == Some(DigitsValue(s))
    ensures s == [] ==> r == None
  {
    if |s| > 0 && (s[0] == '-' || s[0] == '+') then
      if |s| > 1 && AllDigits(s[1..]) then
        var v: int := DigitsValue(s[1..]);
        Some(if s[0] == '-' then -v else v)
      else None
    else if |s| > 0 && AllDigits(s) then Some(DigitsValue(s))
    else None
  }

  /** Python's `s.split(c)` for a one-character separator: the pieces between the
      separators, in order, empty pieces included. */
  function Split(s: string, c: char): (r: seq<string>)
    ensures |r| >= 1
    ensures forall i :: 0 <= i < |r| ==> c !in r[i]
    decreases |s|
  {
    if |s| == 0 then [""]
    else
      var rest := Split(s[1..], c);
      if s[0] == c then [""] + rest else [[s[0]] + rest[0]] + rest[1..]
  }

  /** Python's `sep.join(parts)`. */
  function Join(parts: seq<string>, sep: string): string
  {
    if |parts| == 0 then ""
    else if |parts| == 1 then parts[0]
    else parts[0] + sep + Join(parts[1..], sep)
  }

  /** Joining the pieces of a split with the separator restores the string. */
  lemma {:induction false} JoinSplit(s: string, c: char)
    ensures Join(Split(s, c), [c]) == s
    decreases |s|
  {
    if |s| > 0 {
      var rest := Split(s[1..], c);
      JoinSplit(s[1..], c);
      if s[0] == c {
        assert Split(s, c) == [""] + rest;
        assert s == [c] + s[1..];
      } else {
        JoinHead(rest, [c], [s[0]]);
        assert s == [s[0]] + s[1..];
      }
    }
  }

  /** Putting text in front of the first part puts it in front of the joined text. */
  lemma {:induction false} JoinHead(parts: seq<string>, sep: string, pre: string)
    requires |parts| >= 1
    ensures Join([pre + parts[0]] + parts[1..], sep) == pre + Join(parts, sep)
  {
    var ps := [pre + parts[0]] + parts[1..];
    assert ps[1..] == parts[1..];
  }

  /** Splitting joined pieces that do not contain the separator gives the pieces back. */
  lemma {:induction false} SplitJoin(parts: seq<string>, c: char)
    requires |parts| >= 1
    requires forall i :: 0 <= i < |parts| ==> c !in parts[i]
    ensures Split(Join(parts, [c]), c) == parts
    decreases |parts|, |parts[0]|
  {
    if |parts[0]| == 0 {
      if |parts| == 1 {
      } else {
        var tail := Join(parts[1..], [c]);
        assert Join(parts, [c]) == [c] + tail;
        SplitJoin(parts[1..], c);
        assert ([c] + tail)[1..] == tail;
        assert parts == [""] + parts[1..];
      }
    } else {
      var p0 := parts[0];
      var shorter := [p0[1..]] + parts[1..];
      forall i | 0 <= i < |shorter| ensures c !in shorter[i] {
        if i > 0 { assert shorter[i] == parts[i]; }
      }
      SplitJoin(shorter, c);
      JoinHead(shorter, [c], [p0[0]]);
      assert [p0[0]] + shorter[0] == p0;
      assert [p0] + shorter[1..] == parts;
      var j := Join(parts, [c]);
      assert j[0] == p0[0] && j[1..] == Join(shorter, [c]);
      assert shorter[1..] == parts[1..];
    }
  }

  /** Splitting at separators that surround separator-free text. */
  lemma SplitAround(pre: string, mid: string, c: char)
    requires c !in pre && c !in mid
    ensures Split(pre + [c] + mid, c) == [pre, mid]
  {
    SplitJoin([pre, mid], c);
  }

  /** `pat` occurs in `s` (Python's `pat in s` for a substring). */
  predicate Contains(s: string, pat: string)
    decreases |s|
  {
    pat <= s || (|s| > 0 && Contains(s[1..], pat))
  }

  /** Python's `s.replace(pat, w)`: every occurrence of `pat`, scanning left to right and
      without overlap, is replaced by `w`. */
  function Replace(s: string, pat: string, w: string): string
    requires |pat| > 0
    decreases |s|
  {
    if |s| == 0 then ""
    else if pat <= s then w + Replace(s[|pat|..], pat, w)
    else [s[0]] + Replace(s[1..], pat, w)
  }

  /** A two-character pattern occurs in a concatenation only inside one of its parts or
      across the seam. */
  lemma {:induction false} ContainsConcat(a: string, b: string, q: string)
    requires |q| == 2
    ensures Contains(a + b, q) ==>
      Contains(a, q) || Contains(b, q) || (|a| > 0 && |b| > 0 && a[|a| - 1] == q[0] && b[0] == q[1])
    decreases |a|
  {
    if |a| == 0 {
      assert a + b == b;
    } else if q <= a + b {
      if |a| >= 2 {
        assert a[..2] == (a + b)[..2];
      }
    } else {
      assert (a + b)[1..] == a[1..] + b;
      ContainsConcat(a[1..], b, q);
    }
  }

  /** A text none of whose characters starts or ends the pattern does not contain it. */
  lemma {:induction false} NotContainsForeign(w: string, q: string)
    requires |q| == 2 && q[0] !in w
    ensures !Contains(w, q)
    decreases |w|
  {
    if |w| > 0 {
      assert !(q <= w) by { assert w[0] != q[0]; }
      NotContainsForeign(w[1..], q);
    }
  }

  /** What `Replace` puts first: the replacement text, or the first character of `s`. */
  lemma ReplaceHead(s: string, pat: string, w: string)
    requires |pat| > 0 && |w| > 0 && |s| > 0
    ensures var r := Replace(s, pat, w);
      |r| > 0 && (if pat <= s then r[0] == w[0] else r[0] == s[0])
  {
  }

  /** Replacing a two-character pattern by text that holds neither of its characters leaves
      no occurrence of it behind, and neither creates nor leaves an occurrence of another
      two-character pattern `q` that the text does not hold either. */
  lemma {:induction false} ReplaceLeavesNone(s: string, pat: string, w: string, q: string)
    requires |pat| == 2 && |q| == 2 && |w| > 0
    requires q[0] !in w && q[1] !in w
    requires q == pat || !Contains(s, q)
    ensures !Contains(Replace(s, pat, w), q)
    decreases |s|
  {
    if |s| > 0 {
      if pat <= s {
        var tail := s[|pat|..];
        SuffixContains(s, 2, q);
        ReplaceLeavesNone(tail, pat, w, q);
        NotContainsForeign(w, q);
        ContainsConcat(w, Replace(tail, pat, w), q);
        assert w[|w| - 1] in w;
      } else {
        var tail := s[1..];
        var rt := Replace(tail, pat, w);
        ReplaceLeavesNone(tail, pat, w, q);
        ContainsConcat([s[0]], rt, q);
        if |tail| > 0 {
          ReplaceHead(tail, pat, w);
          assert w[0] in w;
          assert s[..2] == [s[0], tail[0]];
          assert q == [q[0], q[1]];
        }
      }
    }
  }

  /** A pattern contained in a suffix is contained in the whole string. */
  lemma {:induction false} SuffixContains(s: string, k: nat, q: string)
    requires k <= |s|
    ensures Contains(s[k..], q) ==> Contains(s, q)
    decreases k
  {
    if k > 0 {
      assert s[1..][k - 1..] == s[k..];
      SuffixContains(s[1..], k - 1, q);
    }
  }

  /** The first position at which `pat` occurs in `s` (Python's `s.find(pat)`). */
  function Find(s: string, pat: string): (r: Option<nat>)
    requires |pat| > 0
    ensures r.Some? ==> r.value + |pat| <= |s| && pat <= s[r.value..]
    ensures r.Some? ==> forall j :: 0 <= j < r.value ==> !(pat <= s[j..])
    ensures r.None? ==> forall j :: 0 <= j <= |s| ==> !(pat <= s[j..])
    decreases |s|
  {
    if |s| < |pat| then None
    else if pat <= s then Some(0)
    else
      match Find(s[1..], pat)
      case None =>
        assert forall j :: 1 <= j <= |s| ==> s[j..] == s[1..][j - 1..];
        None
      case Some(i) =>
        assert forall j :: 1 <= j <= i + 1 ==> s[j..] == s[1..][j - 1..];
        assert s[i + 1..] == s[1..][i..];
        Some(i + 1)
  }

  /** Python's `s.split(sep)[1]`: the text between the first and the second occurrence of
      `sep` (or the end), or `None` where Python raises `IndexError` because `sep` does not
      occur at all. */
  function SecondField(s: string, sep: string): (r: Option<string>)
    requires |sep| > 0
    ensures r.None? <==> Find(s, sep).None?
  {
    match Find(s, sep)
    case None => None
    case Some(i) => Some(UpTo(s[i + |sep|..], sep))
  }

  /** The text before the first occurrence of `sep`, or all of it. */
  function UpTo(s: string, sep: string): (r: string)
    requires |sep| > 0
    ensures r <= s
  {
    match Find(s, sep)
    case None => s
    case Some(j) => s[..j]
  }

  /** Python's `s.split(":")[0]`: the text before the first colon, or all of it. */
  function FirstSegment(s: string): (r: string)
    ensures r <= s && ':' !in r
    ensures r == s || (|r| < |s| && s[|r|] == ':')
  {
    if ':' in s then
      var parts := Split(s, ':');
      JoinSplit(s, ':');
      FirstOfJoin(parts, ":");
      parts[0]
    else
      SplitJoin([s], ':');
      s
  }

  /** The joined text begins with the first part, followed by the separator if there are
      more parts. */
  lemma FirstOfJoin(parts: seq<string>, sep: string)
    requires |parts| >= 1
    ensures parts[0] <= Join(parts, sep)
    ensures |parts| > 1 ==> parts[0] + sep <= Join(parts, sep)
  {
  }

  /** `Find` answers the first occurrence, whatever way it is found. */
  lemma FindFirst(s: string, pat: string, k: nat)
    requires |pat| > 0 && k + |pat| <= |s| && pat <= s[k..]
    requires forall j :: 0 <= j < k ==> !(pat <= s[j..])
    ensures Find(s, pat) == Some(k)
  {
  }

  /** `pat` does not start where its first character is missing. */
  lemma NotPrefixAt(s: string, pat: string, j: nat)
    requires |pat| > 0 && j < |s| && s[j] != pat[0]
    ensures !(pat <= s[j..])
  {
    assert s[j..][0] == s[j];
  }

  /** When `sep` occurs again after `x`, and `x` holds no character that could start it,
      `split(sep)[1]` is `x`, whatever follows. */
  lemma SecondFieldStopsEarly(sep: string, x: string, y: string)
    requires |sep| > 0 && sep[0] !in x
    ensures SecondField(sep + x + sep + y, sep) == Some(x)
  {
    var a := sep + x + sep + y;
    assert a[0..] == a;
    FindFirst(a, sep, 0);
    var rest := a[|sep|..];
    assert rest == x + sep + y;
    assert rest[|x|..] == sep + y;
    forall j | 0 <= j < |x| ensures !(sep <= rest[j..]) {
      assert rest[j] == x[j];
      NotPrefixAt(rest, sep, j);
    }
    FindFirst(rest, sep, |x|);
    assert UpTo(rest, sep) == rest[..|x|] == x;
  }

  /** The joined text ends with the separator and the last part. */
  lemma {:induction false} JoinLast(parts: seq<string>, sep: string)
    requires |parts| >= 2
    ensures Join(parts, sep) == Join(parts[..|parts| - 1], sep) + sep + parts[|parts| - 1]
    decreases |parts|
  {
    var n := |parts|;
    if n == 2 {
      assert parts[..1] == [parts[0]];
      assert parts[1..] == [parts[1]];
    } else {
      JoinLast(parts[1..], sep);
      assert parts[1..][..n - 2] == parts[..n - 1][1..];
      assert parts[..n - 1][0] == parts[0];
    }
  }

  /** Replacing a pattern that does not occur changes nothing. */
  lemma {:induction false} ReplaceAbsent(s: string, pat: string, w: string)
    requires |pat| > 0 && !Contains(s, pat)
    ensures Replace(s, pat, w) == s
    decreases |s|
  {
    if |s| > 0 {
      ReplaceAbsent(s[1..], pat, w);
      assert s == [s[0]] + s[1..];
    }
  }

  /** Text that holds no first character of the pattern passes through `Replace` as it is. */
  lemma {:induction false} ReplaceSkip(a: string, pat: string, w: string, rest: string)
    requires |pat| > 0 && pat[0] !in a
    ensures Replace(a + rest, pat, w) == a + Replace(rest, pat, w)
    decreases |a|
  {
    if |a| == 0 {
      assert a + rest == rest;
    } else {
      assert (a + rest)[0] == a[0];
      assert !(pat <= a + rest);
      assert (a + rest)[1..] == a[1..] + rest;
      ReplaceSkip(a[1..], pat, w, rest);
      assert a == [a[0]] + a[1..];
    }
  }

  /** An occurrence at the front is replaced, and the scan goes on after it. */
  lemma ReplaceFront(pat: string, w: string, rest: string)
    requires |pat| > 0
    ensures Replace(pat + rest, pat, w) == w + Replace(rest, pat, w)
  {
    assert (pat + rest)[|pat|..] == rest;
  }

  /** A numeral holds no character other than digits. */
  lemma DigitsAvoid(s: string, c: char)
    requires AllDigits(s) && !IsDigit(c)
    ensures c !in s
  {
    forall i | 0 <= i < |s| ensures s[i] != c {
      assert IsDigit(s[i]);
    }
  }

  /** The first segment of `a:b` is `a` when `a` has no colon. */
  lemma FirstSegmentOf(a: string, b: string)
    requires ':' !in a
    ensures FirstSegment(a + ":" + b) == a
  {
    var s := a + ":" + b;
    var r := FirstSegment(s);
    assert s[|a|] == ':';
    assert |r| == |a|;
    assert r == s[..|r|];
    assert s[..|a|] == a;
  }

  /** Three parts joined, written out. */
  lemma JoinThree(lines: seq<string>, sep: string)
    requires |lines| == 3
    ensures Join(lines, sep) == lines[0] + sep + lines[1] + sep + lines[2]
  {
    assert lines[1..][1..] == lines[2..] && lines[1..][0] == lines[1];
    assert Join(lines[2..], sep) == lines[2];
    assert Join(lines[1..], sep) == lines[1] + sep + lines[2];
  }

  /** Four parts joined, written out. */
  lemma JoinFour(lines: seq<string>, sep: string)
    requires |lines| == 4
    ensures Join(lines, sep) == lines[0] + sep + lines[1] + sep + lines[2] + sep + lines[3]
  {
    assert lines[1..][1..] == lines[2..] && lines[2..][1..] == lines[3..] && lines[1..][0] == lines[1];
    assert Join(lines[3..], sep) == lines[3];
    assert Join(lines[2..], sep) == lines[2] + sep + lines[3];
    assert Join(lines[1..], sep) == lines[1] + sep + lines[2] + sep + lines[3];
  }

  /** Appending a separator and separator-free text to a string adds one last piece to its
      split. */
  lemma {:induction false} SplitAppend(a: string, b: string, c: char)
    requires c !in b
    ensures Split(a + [c] + b, c) == Split(a, c) + [b]
    decreases |a|
  {
    var s := a + [c] + b;
    if |a| == 0 {
      SplitJoin([b], c);
      assert s == [c] + b;
      assert s[1..] == b;
    } else {
      SplitAppend(a[1..], b, c);
      assert s[1..] == a[1..] + [c] + b;
      var rest := Split(a[1..], c);
      if a[0] != c {
        assert (rest + [b])[0] == rest[0];
        assert (rest + [b])[1..] == rest[1..] + [b];
      }
    }
  }
}
