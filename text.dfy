/**
 * The few string operations of Python's `str` that the MeSH code relies on:
 * `split` with a one-character or a multi-character separator, `join`,
 * ASCII `lower`/`upper`, `isdigit` on ASCII digits and the decimal rendering
 * of a natural number used inside error messages.
 */
module Text {

  /** `s.split(sep)` for a one-character separator: never empty, no part holds `sep`. */
  function Split(s: string, sep: char): (parts: seq<string>)
    ensures |parts| >= 1
    ensures forall k :: 0 <= k < |parts| ==> sep !in parts[k]
    decreases |s|
  {
    if |s| == 0 then [""]
    else
      var rest := Split(s[1..], sep);
      if s[0] == sep then [""] + rest
      else [[s[0]] + rest[0]] + rest[1..]
  }

  /** `sep.join(parts)`. */
  function Join(parts: seq<string>, sep: string): string
  {
    if |parts| == 0 then ""
    else if |parts| == 1 then parts[0]
    else parts[0] + sep + Join(parts[1..], sep)
  }

  /** `s.split(sep)` for a non-empty separator string: leftmost, non-overlapping occurrences. */
  function SplitOn(s: string, sep: string): (parts: seq<string>)
    requires |sep| > 0
    ensures |parts| >= 1
    decreases |s|
  {
    if |s| < |sep| then [s]
    else if s[..|sep|] == sep then [""] + SplitOn(s[|sep|..], sep)
    else
      var rest := SplitOn(s[1..], sep);
      [[s[0]] + rest[0]] + rest[1..]
  }

  function LowerChar(c: char): char
  {
    if 'A' <= c <= 'Z' then (c as int + 32) as char else c
  }

  function UpperChar(c: char): char
  {
    if 'a' <= c <= 'z' then (c as int - 32) as char else c
  }

  /** `s.lower()`, restricted to ASCII letters. */
  function Lower(s: string): string
  {
    seq(|s|, i requires 0 <= i < |s| => LowerChar(s[i]))
  }

  predicate IsDigit(c: char)
  {
    '0' <= c <= '9'
  }

  /** `s.isdigit()` on ASCII digits: non-empty and every character a digit. */
  predicate IsDigits(s: string)
  {
    |s| > 0 && forall i :: 0 <= i < |s| ==> IsDigit(s[i])
  }

  /** Decimal rendering of `n`, as an f-string prints an `int`. */
  function NatToString(n: nat): (s: string)
    ensures IsDigits(s)
    decreases n
  {
    if n < 10 then [('0' as int + n) as char]
    else NatToString(n / 10) + [('0' as int + n % 10) as char]
  }

  /** Joining the parts of a split gives back the string. */
  lemma {:induction false} JoinSplit(s: string, sep: char)
    ensures Join(Split(s, sep), [sep]) == s
    decreases |s|
  {
    if |s| > 0 {
      var rest := Split(s[1..], sep);
      JoinSplit(s[1..], sep);
      if s[0] == sep {
        assert Split(s, sep) == [""] + rest;
        JoinCons("", rest, [sep]);
        assert s == [s[0]] + s[1..];
      } else {
        var parts := Split(s, sep);
        assert parts == [[s[0]] + rest[0]] + rest[1..];
        if |rest| == 1 {
          assert Join(parts, [sep]) == [s[0]] + rest[0];
        } else {
          JoinCons(rest[0], rest[1..], [sep]);
          assert rest == [rest[0]] + rest[1..];
          JoinCons([s[0]] + rest[0], rest[1..], [sep]);
        }
        assert s == [s[0]] + s[1..];
      }
    }
  }

  lemma JoinCons(head: string, tail: seq<string>, sep: string)
    requires |tail| >= 1
    ensures Join([head] + tail, sep) == head + sep + Join(tail, sep)
  {
    assert ([head] + tail)[1..] == tail;
  }

  /** A string free of the separator splits into itself alone. */
  lemma {:induction false} SplitNoSeparator(a: string, sep: char)
    requires sep !in a
    ensures Split(a, sep) == [a]
    decreases |a|
  {
    if |a| > 0 {
      SplitNoSeparator(a[1..], sep);
      assert a == [a[0]] + a[1..];
    }
  }

  /** Splitting at the first separator peels off the leading part. */
  lemma {:induction false} SplitAfterPart(a: string, sep: char, b: string)
    requires sep !in a
    ensures Split(a + [sep] + b, sep) == [a] + Split(b, sep)
    decreases |a|
  {
    var s := a + [sep] + b;
    if |a| == 0 {
      assert s[1..] == b;
    } else {
      assert s[1..] == a[1..] + [sep] + b;
      SplitAfterPart(a[1..], sep, b);
      assert a == [a[0]] + a[1..];
    }
  }

  /** Splitting a join of separator-free parts gives back the parts. */
  lemma {:induction false} SplitJoin(parts: seq<string>, sep: char)
    requires |parts| >= 1
    requires forall k :: 0 <= k < |parts| ==> sep !in parts[k]
    ensures Split(Join(parts, [sep]), sep) == parts
    decreases |parts|
  {
    if |parts| == 1 {
      SplitNoSeparator(parts[0], sep);
    } else {
      JoinCons(parts[0], parts[1..], [sep]);
      SplitAfterPart(parts[0], sep, Join(parts[1..], [sep]));
      SplitJoin(parts[1..], sep);
      assert parts == [parts[0]] + parts[1..];
    }
  }

  /** Joining is associative over a cut: the parts before `k`, the separator, the parts after. */
  lemma {:induction false} JoinAt(parts: seq<string>, k: nat, sep: string)
    requires 1 <= k < |parts|
    ensures Join(parts, sep) == Join(parts[..k], sep) + sep + Join(parts[k..], sep)
    decreases k
  {
    JoinCons(parts[0], parts[1..], sep);
    assert parts == [parts[0]] + parts[1..];
    if k > 1 {
      JoinAt(parts[1..], k - 1, sep);
      assert parts[1..][..k - 1] == parts[..k][1..];
      assert parts[1..][k - 1..] == parts[k..];
      JoinCons(parts[0], parts[..k][1..], sep);
      assert parts[..k] == [parts[0]] + parts[..k][1..];
    }
  }

  /** Joining the parts of a multi-character split gives back the string. */
  lemma {:induction false} JoinSplitOn(s: string, sep: string)
    requires |sep| > 0
    ensures Join(SplitOn(s, sep), sep) == s
    decreases |s|
  {
    if |s| >= |sep| {
      if s[..|sep|] == sep {
        JoinSplitOn(s[|sep|..], sep);
        JoinSplitOnAtSeparator(s, sep);
      } else {
        JoinSplitOn(s[1..], sep);
        JoinSplitOnAtChar(s, sep);
      }
    }
  }

  lemma JoinSplitOnAtSeparator(s: string, sep: string)
    requires 0 < |sep| <= |s| && s[..|sep|] == sep
    requires Join(SplitOn(s[|sep|..], sep), sep) == s[|sep|..]
    ensures Join(SplitOn(s, sep), sep) == s
  {
    var rest := SplitOn(s[|sep|..], sep);
    assert SplitOn(s, sep) == [""] + rest;
    JoinCons("", rest, sep);
    assert s == s[..|sep|] + s[|sep|..];
  }

  lemma JoinSplitOnAtChar(s: string, sep: string)
    requires 0 < |sep| <= |s| && s[..|sep|] != sep
    requires Join(SplitOn(s[1..], sep), sep) == s[1..]
    ensures Join(SplitOn(s, sep), sep) == s
  {
    SplitOnAtChar(s, sep);
    JoinHead(s[0], SplitOn(s[1..], sep), sep);
    assert s == [s[0]] + s[1..];
  }

  /** Prepending a character to the first part prepends it to the join. */
  lemma JoinHead(c: char, parts: seq<string>, sep: string)
    requires |parts| >= 1
    ensures Join([[c] + parts[0]] + parts[1..], sep) == [c] + Join(parts, sep)
  {
    if |parts| > 1 {
      JoinCons(parts[0], parts[1..], sep);
      assert parts == [parts[0]] + parts[1..];
      JoinCons([c] + parts[0], parts[1..], sep);
    }
  }

  lemma SplitOnAtChar(s: string, sep: string)
    requires 0 < |sep| <= |s| && s[..|sep|] != sep
    ensures SplitOn(s, sep) == [[s[0]] + SplitOn(s[1..], sep)[0]] + SplitOn(s[1..], sep)[1..]
  {
  }

  /** Whether `sep` occurs in `s` starting at position `i`. */
  predicate OccursAt(s: string, i: nat, sep: string)
  {
    i + |sep| <= |s| && s[i..i + |sep|] == sep
  }

  /** A leading stretch inside which no occurrence of the separator starts stays in the first part. */
  lemma {:induction false} SplitOnLead(a: string, b: string, sep: string)
    requires |sep| > 0
    requires forall i :: 0 <= i < |a| ==> !OccursAt(a + b, i, sep)
    ensures SplitOn(a + b, sep) == [a + SplitOn(b, sep)[0]] + SplitOn(b, sep)[1..]
    decreases |a|
  {
    var s := a + b;
    var parts := SplitOn(b, sep);
    if |a| > 0 {
      assert s[1..] == a[1..] + b;
      forall i | 0 <= i < |a[1..]|
        ensures !OccursAt(a[1..] + b, i, sep)
      {
        assert !OccursAt(s, i + 1, sep);
        if i + |sep| <= |s[1..]| {
          assert s[1..][i..i + |sep|] == s[i + 1..i + 1 + |sep|];
        }
      }
      SplitOnLead(a[1..], b, sep);
      var q := SplitOn(s[1..], sep);
      assert q[0] == a[1..] + parts[0] && q[1..] == parts[1..];
      assert a == [a[0]] + a[1..];
      assert [a[0]] + q[0] == a + parts[0];
      if |s| >= |sep| {
        assert !OccursAt(s, 0, sep);
        assert s[..|sep|] == s[0..|sep|];
        SplitOnAtChar(s, sep);
      } else {
        assert parts == [b];
      }
    } else {
      assert s == b;
      assert a + parts[0] == parts[0];
      assert parts == [parts[0]] + parts[1..];
    }
  }

  /** The first part of a multi-character split is a prefix of the string. */
  lemma {:induction false} SplitOnFirstPrefix(s: string, sep: string)
    requires |sep| > 0
    ensures |SplitOn(s, sep)[0]| <= |s| && SplitOn(s, sep)[0] == s[..|SplitOn(s, sep)[0]|]
    decreases |s|
  {
    if |s| >= |sep| && s[..|sep|] != sep {
      SplitOnFirstPrefix(s[1..], sep);
      var head := SplitOn(s[1..], sep)[0];
      assert SplitOn(s, sep)[0] == [s[0]] + head;
      assert s[..|head| + 1] == [s[0]] + s[1..][..|head|];
    }
  }

  /** A string free of the separator's first character splits into itself alone. */
  lemma SplitOnAlone(a: string, sep: string)
    requires |sep| > 0 && sep[0] !in a
    ensures SplitOn(a, sep) == [a]
  {
    assert a + "" == a;
    assert forall i :: 0 <= i < |a| ==> !OccursAt(a + "", i, sep);
    SplitOnLead(a, "", sep);
    assert SplitOn("", sep) == [""];
  }
}
