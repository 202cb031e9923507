/** Small shared pieces: an optional value, the least element of a finite set of
    ids, ids in ascending order, decimal rendering of integers and Python's notion
    of a blank string. */
module Util {

  datatype Option<T> = None | Some(value: T) {
    function GetOr(default: T): T {
      match this
      case Some(v) => v
      case None => default
    }
  }

  /** A non-empty set has a member. */
  lemma NonEmptyHasMember(s: set<int>)
    requires s != {}
    ensures exists y :: y in s
  {
    if forall y :: y !in s { assert false; }
  }

  predicate IsLeast(m: int, s: set<int>)
  {
    m in s && forall x | x in s :: m <= x
  }

  lemma {:induction false} LeastExists(s: set<int>)
    requires s != {}
    ensures exists m :: IsLeast(m, s)
    decreases |s|
  {
    NonEmptyHasMember(s);
    var y :| y in s;
    var rest := s - {y};
    if rest == {} {
      forall x | x in s ensures y <= x { assert x !in rest; }
      assert IsLeast(y, s);
    } else {
      LeastExists(rest);
      var m :| IsLeast(m, rest);
      var least := if y < m then y else m;
      forall x | x in s ensures least <= x {
        if x != y { assert x in rest; }
      }
      assert IsLeast(least, s);
    }
  }

  /** A subset as large as its superset is the whole superset. */
  lemma SubsetOfSameSizeIsEqual(a: set<int>, b: set<int>)
    requires a <= b && |a| == |b|
    ensures a == b
  {
    var extra := b - a;
    assert b == extra + a;
    assert extra * a == {};
    assert |extra| == 0;
    forall x | x in b ensures x in a { assert x !in extra; }
  }

  /** The smallest id of a non-empty set: what `ORDER BY id ASC LIMIT 1` selects. */
  function MinOf(s: set<int>): (m: int)
    requires s != {}
    ensures m in s && forall x | x in s :: m <= x
  {
    LeastExists(s);
    var m :| IsLeast(m, s); m
  }

  /** The ids of a set in ascending order, each once: the order in which SQLite
      scans a table by rowid. */
  function SortedIds(s: set<int>): (r: seq<int>)
    ensures forall x :: x in r <==> x in s
    ensures forall i, j | 0 <= i < j < |r| :: r[i] < r[j]
    decreases s
  {
    if s == {} then [] else var m := MinOf(s); [m] + SortedIds(s - {m})
  }

  function DigitChar(d: int): char
    requires 0 <= d < 10
  {
    "0123456789"[d]
  }

  function NatToString(n: nat): (s: string)
    ensures |s| >= 1
    decreases n
  {
    if n < 10 then [DigitChar(n)] else NatToString(n / 10) + [DigitChar(n % 10)]
  }

  /** Python's `str(i)` for an integer. */
  function IntToString(i: int): string
  {
    if i < 0 then "-" + NatToString(-i) else NatToString(i)
  }

  /** The parts joined with nothing in between. */
  function Concat(parts: seq<string>): string
  {
    if parts == [] then "" else Concat(parts[..|parts| - 1]) + parts[|parts| - 1]
  }

  /** Joining two runs of parts is joining each and appending the results. */
  lemma {:induction false} ConcatSplit(a: seq<string>, b: seq<string>)
    ensures Concat(a + b) == Concat(a) + Concat(b)
    decreases |b|
  {
    if b == [] {
      assert a + b == a;
    } else {
      ConcatSplit(a, b[..|b| - 1]);
      assert (a + b)[..|a + b| - 1] == a + b[..|b| - 1];
    }
  }

  lemma AppendAssoc(a: string, b: string, c: string)
    ensures (a + b) + c == a + (b + c)
  {
  }

  /** Python's `str.isspace` for one character. */
  predicate IsSpace(c: char)
  {
    var n := c as int;
    || 0x09 <= n <= 0x0D || 0x1C <= n <= 0x20
    || n == 0x85 || n == 0xA0 || n == 0x1680
    || 0x2000 <= n <= 0x200A
    || n == 0x2028 || n == 0x2029 || n == 0x202F || n == 0x205F || n == 0x3000
  }

  /** `not s.strip()`: the string is empty once whitespace is stripped. */
  predicate IsBlank(s: string)
  {
    forall i | 0 <= i < |s| :: IsSpace(s[i])
  }

  /** `s.lstrip()`: leading whitespace removed. */
  function StripStart(s: string): string
    decreases |s|
  {
    if s != [] && IsSpace(s[0]) then StripStart(s[1..]) else s
  }

  /** `s.rstrip()`: trailing whitespace removed. */
  function StripEnd(s: string): string
    decreases |s|
  {
    if s != [] && IsSpace(s[|s| - 1]) then StripEnd(s[..|s| - 1]) else s
  }

  /** `s.strip()`. */
  function Strip(s: string): string
  {
    StripEnd(StripStart(s))
  }

  lemma {:induction false} StripStartEmptyIffBlank(s: string)
    ensures StripStart(s) == [] <==> IsBlank(s)
    ensures StripStart(s) != [] ==> !IsSpace(StripStart(s)[0])
    decreases |s|
  {
    if s != [] && IsSpace(s[0]) {
      StripStartEmptyIffBlank(s[1..]);
      assert forall i | 1 <= i < |s| :: s[i] == s[1..][i - 1];
      assert forall i | 0 <= i < |s[1..]| :: s[1..][i] == s[i + 1];
    }
  }

  lemma {:induction false} StripEndKeepsFirst(s: string)
    requires s != [] && !IsSpace(s[0])
    ensures StripEnd(s) != []
    decreases |s|
  {
    if IsSpace(s[|s| - 1]) {
      StripEndKeepsFirst(s[..|s| - 1]);
    }
  }

  /** `not s.strip()` holds exactly when every character of `s` is whitespace. */
  lemma BlankIffStripsToEmpty(s: string)
    ensures IsBlank(s) <==> Strip(s) == []
  {
    StripStartEmptyIffBlank(s);
    if StripStart(s) != [] {
      StripEndKeepsFirst(StripStart(s));
    }
  }

  /** `part` occurs in `s` starting at index `i`. */
  predicate OccursAt(s: string, part: string, i: int)
  {
    0 <= i <= |s| - |part| && s[i..i + |part|] == part
  }

  /** `part` occurs in `s`. */
  predicate Contains(s: string, part: string)
  {
    exists i | 0 <= i <= |s| - |part| :: OccursAt(s, part, i)
  }

  lemma ContainsEnd(prefix: string, s: string)
    ensures Contains(prefix + s, s)
  {
    assert OccursAt(prefix + s, s, |prefix|);
  }

  lemma ContainsExtend(s: string, part: string, suffix: string)
    requires Contains(s, part)
    ensures Contains(s + suffix, part)
  {
    var i :| 0 <= i <= |s| - |part| && OccursAt(s, part, i);
    assert (s + suffix)[i..i + |part|] == s[i..i + |part|];
    assert OccursAt(s + suffix, part, i);
  }

  lemma ContainsSelf(s: string)
    ensures Contains(s, s)
  {
    assert OccursAt(s, s, 0);
  }

  lemma ContainsStart(part: string, suffix: string)
    ensures Contains(part + suffix, part)
  {
    assert OccursAt(part + suffix, part, 0);
  }

  lemma ContainsWithin(prefix: string, part: string, suffix: string)
    ensures Contains(prefix + part + suffix, part)
  {
    assert (prefix + part + suffix)[|prefix|..|prefix| + |part|] == part;
    assert OccursAt(prefix + part + suffix, part, |prefix|);
  }

  /** Each value in a text built as label, value, label, value, label, value and
      a final tail occurs in it. */
  lemma ContainsEachOfThree(l0: string, v0: string, l1: string, v1: string, l2: string, v2: string, tail: string)
    ensures var s := l0 + v0 + l1 + v1 + l2 + v2 + tail;
            Contains(s, v0) && Contains(s, v1) && Contains(s, v2)
  {
    var s := l0 + v0 + l1 + v1 + l2 + v2 + tail;
    assert s == l0 + v0 + (l1 + v1 + l2 + v2 + tail);
    ContainsWithin(l0, v0, l1 + v1 + l2 + v2 + tail);
    assert s == l0 + v0 + l1 + v1 + (l2 + v2 + tail);
    ContainsWithin(l0 + v0 + l1, v1, l2 + v2 + tail);
    ContainsWithin(l0 + v0 + l1 + v1 + l2, v2, tail);
  }

  /** `s.endswith(suffix)`. */
  predicate EndsWith(s: string, suffix: string)
  {
    |suffix| <= |s| && s[|s| - |suffix|..] == suffix
  }

  /** A part of a part of a text is a part of the text. */
  lemma ContainsTrans(s: string, mid: string, part: string)
    requires Contains(s, mid) && Contains(mid, part)
    ensures Contains(s, part)
  {
    var i :| 0 <= i <= |s| - |mid| && OccursAt(s, mid, i);
    var j :| 0 <= j <= |mid| - |part| && OccursAt(mid, part, j);
    forall k | 0 <= k < |part| ensures s[i + j + k] == part[k] {
      assert s[i..i + |mid|][j + k] == mid[j + k];
      assert mid[j..j + |part|][k] == part[k];
    }
    assert s[i + j..i + j + |part|] == part;
    assert OccursAt(s, part, i + j);
  }

  /** A text made of a header, a body and a footer opens with the header, closes
      with the footer, and holds each part of the body. */
  lemma Framed(header: string, before: string, part: string, after: string, footer: string)
    ensures var s := header + (before + part + after) + footer;
            header <= s && EndsWith(s, footer) && Contains(s, part)
  {
    var s := header + (before + part + after) + footer;
    assert s == header + before + part + (after + footer);
    assert s[|s| - |footer|..] == footer;
    ContainsWithin(header + before, part, after + footer);
  }

  /** Each value in a text built as label, value, label, value, ... and a final
      tail occurs in it. */
  lemma ContainsEachValue(l0: string, v0: string, l1: string, v1: string, l2: string, v2: string,
                          l3: string, v3: string, tail: string)
    ensures var s := l0 + v0 + l1 + v1 + l2 + v2 + l3 + v3 + tail;
            Contains(s, v0) && Contains(s, v1) && Contains(s, v2) && Contains(s, v3)
  {
    var s := l0 + v0 + l1 + v1 + l2 + v2 + l3 + v3 + tail;
    assert s == l0 + v0 + (l1 + v1 + l2 + v2 + l3 + v3 + tail);
    ContainsWithin(l0, v0, l1 + v1 + l2 + v2 + l3 + v3 + tail);
    assert s == l0 + v0 + l1 + v1 + (l2 + v2 + l3 + v3 + tail);
    ContainsWithin(l0 + v0 + l1, v1, l2 + v2 + l3 + v3 + tail);
    assert s == l0 + v0 + l1 + v1 + l2 + v2 + (l3 + v3 + tail);
    ContainsWithin(l0 + v0 + l1 + v1 + l2, v2, l3 + v3 + tail);
    ContainsWithin(l0 + v0 + l1 + v1 + l2 + v2 + l3, v3, tail);
  }

  lemma ContainsPrepend(prefix: string, s: string, part: string)
    requires Contains(s, part)
    ensures Contains(prefix + s, part)
  {
    var i :| 0 <= i <= |s| - |part| && OccursAt(s, part, i);
    assert (prefix + s)[|prefix| + i..|prefix| + i + |part|] == s[i..i + |part|];
    assert OccursAt(prefix + s, part, |prefix| + i);
  }

  /** Python's f-string rendering of a value that may be None. */
  function ShowText(v: Option<string>): string
  {
    match v
    case Some(s) => s
    case None => "None"
  }
}
