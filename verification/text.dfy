/** The few Python `str` operations the core relies on: `in` (substring),
    `split` on a one-character separator, `sep.join`, and `strip(chars)`. */
module Text {

  /** `sub in s`: `sub` occurs somewhere in `s`. */
  predicate Contains(s: string, sub: string) {
    exists i | 0 <= i <= |s| :: OccursAt(s, sub, i)
  }

  /** `sub` occurs in `s` starting at index `i`. */
  predicate OccursAt(s: string, sub: string, i: int) {
    0 <= i && i + |sub| <= |s| && s[i..i + |sub|] == sub
  }

  /** Position of the first `c` in `s`. */
  function IndexOf(s: string, c: char): (i: nat)
    requires c in s
    ensures i < |s| && s[i] == c && c !in s[..i]
  {
    if s[0] == c then 0
    else
      assert s == [s[0]] + s[1..];
      1 + IndexOf(s[1..], c)
  }

  /** `s.split(c)`: always at least one part, and no part holds `c`. */
  function Split(s: string, c: char): (parts: seq<string>)
    ensures |parts| >= 1
    ensures forall k :: 0 <= k < |parts| ==> c !in parts[k]
    decreases |s|
  {
    if c !in s then [s]
    else
      var i := IndexOf(s, c);
      [s[..i]] + Split(s[i + 1..], c)
  }

  /** `sep.join(parts)`. */
  function Join(parts: seq<string>, sep: string): string {
    if |parts| == 0 then ""
    else if |parts| == 1 then parts[0]
    else parts[0] + sep + Join(parts[1..], sep)
  }

  /** Joining the parts of a split with the separator gives back the string. */
  lemma {:induction false} JoinSplit(s: string, c: char)
    ensures Join(Split(s, c), [c]) == s
    decreases |s|
  {
    if c in s {
      var i := IndexOf(s, c);
      var rest := Split(s[i + 1..], c);
      JoinSplit(s[i + 1..], c);
      assert Split(s, c) == [s[..i]] + rest;
      assert s == s[..i] + [c] + s[i + 1..];
    }
  }

  /** Splitting a join of separator-free parts gives back the parts. */
  lemma {:induction false} SplitJoin(parts: seq<string>, c: char)
    requires |parts| >= 1
    requires forall k :: 0 <= k < |parts| ==> c !in parts[k]
    ensures Split(Join(parts, [c]), c) == parts
  {
    if |parts| > 1 {
      var tail := Join(parts[1..], [c]);
      var s := parts[0] + [c] + tail;
      assert Join(parts, [c]) == s;
      assert c in s by { assert s[|parts[0]|] == c; }
      var i := IndexOf(s, c);
      assert i == |parts[0]| by {
        assert forall k :: 0 <= k < |parts[0]| ==> s[k] == parts[0][k];
        assert s[|parts[0]|] == c;
      }
      assert s[..i] == parts[0];
      assert s[i + 1..] == tail;
      SplitJoin(parts[1..], c);
      assert parts == [parts[0]] + parts[1..];
    }
  }

  /** A separator-free substring of `s` lies wholly inside one part of `s.split(c)`. */
  lemma {:induction false} ContainedInSomePart(s: string, c: char, sub: string)
    requires Contains(s, sub)
    requires c !in sub
    ensures exists k :: 0 <= k < |Split(s, c)| && Contains(Split(s, c)[k], sub)
    decreases |s|
  {
    if c in s {
      var i := IndexOf(s, c);
      var parts := Split(s, c);
      var rest := Split(s[i + 1..], c);
      assert parts == [s[..i]] + rest;
      var j :| 0 <= j <= |s| && OccursAt(s, sub, j);
      if j + |sub| <= i {
        OccursBefore(s, sub, j, i);
        assert Contains(parts[0], sub);
      } else if j > i {
        OccursAfter(s, sub, j, i);
        ContainedInSomePart(s[i + 1..], c, sub);
        var k :| 0 <= k < |rest| && Contains(rest[k], sub);
        assert parts[k + 1] == rest[k];
      } else {
        assert false;
      }
    } else {
      assert Split(s, c)[0] == s;
    }
  }

  /** An occurrence ending by `i` is an occurrence in `s[..i]`. */
  lemma OccursBefore(s: string, sub: string, j: nat, i: nat)
    requires OccursAt(s, sub, j) && j + |sub| <= i <= |s|
    ensures OccursAt(s[..i], sub, j)
  {
    assert s[..i][j..j + |sub|] == s[j..j + |sub|];
  }

  /** An occurrence starting after `i` is an occurrence in `s[i + 1..]`. */
  lemma OccursAfter(s: string, sub: string, j: nat, i: nat)
    requires OccursAt(s, sub, j) && i < j
    ensures OccursAt(s[i + 1..], sub, j - i - 1)
  {
    assert s[i + 1..][j - i - 1..j - i - 1 + |sub|] == s[j..j + |sub|];
  }

  /** `s.lstrip(chars)`. */
  function LStrip(s: string, chars: set<char>): (r: string)
    ensures |r| <= |s| && r == s[|s| - |r|..]
    ensures forall i :: 0 <= i < |s| - |r| ==> s[i] in chars
    ensures |r| > 0 ==> r[0] !in chars
  {
    if |s| > 0 && s[0] in chars then LStrip(s[1..], chars) else s
  }

  /** `s.rstrip(chars)`. */
  function RStrip(s: string, chars: set<char>): (r: string)
    ensures |r| <= |s| && r == s[..|r|]
    ensures forall i :: |r| <= i < |s| ==> s[i] in chars
    ensures |r| > 0 ==> r[|r| - 1] !in chars
  {
    if |s| > 0 && s[|s| - 1] in chars then RStrip(s[..|s| - 1], chars) else s
  }

  /** `s.strip(chars)`: the longest infix whose ends are not in `chars`,
      obtained by dropping only characters of `chars` on either side. */
  function Strip(s: string, chars: set<char>): (r: string)
    ensures exists k | 0 <= k <= |s| :: OccursAt(s, r, k)
                        && (forall i :: 0 <= i < k ==> s[i] in chars)
                        && (forall i :: k + |r| <= i < |s| ==> s[i] in chars)
    ensures |r| > 0 ==> r[0] !in chars && r[|r| - 1] !in chars
  {
    var l := LStrip(s, chars);
    var r := RStrip(l, chars);
    var k := |s| - |l|;
    assert OccursAt(s, r, k);
    r
  }

  /** Stripping twice strips nothing more. */
  lemma StripIdempotent(s: string, chars: set<char>)
    ensures Strip(Strip(s, chars), chars) == Strip(s, chars)
  {
    var r := Strip(s, chars);
    assert LStrip(r, chars) == r;
    assert RStrip(r, chars) == r;
  }

  /** Left-stripping drops exactly a leading run of stripped characters. */
  lemma {:induction false} LStripExact(a: string, u: string, chars: set<char>)
    requires forall i :: 0 <= i < |a| ==> a[i] in chars
    requires |u| > 0 && u[0] !in chars
    ensures LStrip(a + u, chars) == u
    decreases |a|
  {
    if |a| > 0 {
      assert (a + u)[1..] == a[1..] + u;
      LStripExact(a[1..], u, chars);
    } else {
      assert a + u == u;
    }
  }

  /** Right-stripping drops exactly a trailing run of stripped characters. */
  lemma {:induction false} RStripExact(u: string, b: string, chars: set<char>)
    requires forall i :: 0 <= i < |b| ==> b[i] in chars
    requires |u| > 0 && u[|u| - 1] !in chars
    ensures RStrip(u + b, chars) == u
    decreases |b|
  {
    if |b| > 0 {
      assert (u + b)[..|u + b| - 1] == u + b[..|b| - 1];
      RStripExact(u, b[..|b| - 1], chars);
    } else {
      assert u + b == u;
    }
  }

  /** Stripping `a + u + b`, where `a` and `b` consist of stripped characters
      and `u` neither starts nor ends with one, gives back `u`. */
  lemma StripExact(a: string, u: string, b: string, chars: set<char>)
    requires forall i :: 0 <= i < |a| ==> a[i] in chars
    requires forall i :: 0 <= i < |b| ==> b[i] in chars
    requires |u| > 0 && u[0] !in chars && u[|u| - 1] !in chars
    ensures Strip(a + u + b, chars) == u
  {
    assert (a + u + b) == a + (u + b);
    LStripExact(a, u + b, chars);
    RStripExact(u, b, chars);
  }

  /** The first part of a split is everything before the first separator. */
  lemma SplitFirst(a: string, c: char, b: string)
    requires c !in a
    ensures Split(a + [c] + b, c)[0] == a
  {
    var s := a + [c] + b;
    assert s[|a|] == c;
    var i := IndexOf(s, c);
    assert i == |a| by {
      assert c !in s[..i];
      assert forall k :: 0 <= k < |a| ==> s[k] == a[k];
    }
    assert s[..i] == a;
  }

  /** An occurrence inside an occurrence is an occurrence. */
  lemma OccursWithin(s: string, mid: string, sub: string, i: int, j: int)
    requires OccursAt(s, mid, i) && OccursAt(mid, sub, j)
    ensures OccursAt(s, sub, i + j)
  {
    assert s[i..i + |mid|] == mid;
    forall t | 0 <= t < |sub| ensures s[i + j + t] == sub[t] {
      assert s[i + j + t] == s[i..i + |mid|][j + t] == mid[j + t];
    }
    assert s[i + j..i + j + |sub|] == sub;
  }

  /** Each part of a join occurs in it. */
  lemma {:induction false} JoinContainsPart(parts: seq<string>, sep: string, k: nat)
    requires k < |parts|
    ensures exists i | 0 <= i <= |Join(parts, sep)| :: OccursAt(Join(parts, sep), parts[k], i)
  {
    var s := Join(parts, sep);
    if |parts| == 1 {
      assert OccursAt(s, parts[k], 0);
    } else if k == 0 {
      assert s == parts[0] + (sep + Join(parts[1..], sep));
      assert s[..|parts[0]|] == parts[0];
      assert OccursAt(s, parts[k], 0);
    } else {
      var rest := Join(parts[1..], sep);
      JoinContainsPart(parts[1..], sep, k - 1);
      var i :| 0 <= i <= |rest| && OccursAt(rest, parts[1..][k - 1], i);
      var off := |parts[0]| + |sep|;
      assert s == (parts[0] + sep) + rest;
      assert s[off + i..off + i + |parts[k]|] == rest[i..i + |parts[k]|];
      assert OccursAt(s, parts[k], off + i);
    }
  }

  /** Whatever a part of a join contains, the join contains. */
  lemma ContainsThroughJoin(parts: seq<string>, sep: string, k: nat, sub: string)
    requires k < |parts| && Contains(parts[k], sub)
    ensures Contains(Join(parts, sep), sub)
  {
    JoinContainsPart(parts, sep, k);
    var s := Join(parts, sep);
    var i :| 0 <= i <= |s| && OccursAt(s, parts[k], i);
    var j :| 0 <= j <= |parts[k]| && OccursAt(parts[k], sub, j);
    OccursWithin(s, parts[k], sub, i, j);
  }
}
