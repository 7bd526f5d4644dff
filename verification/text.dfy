/**
 * Strings and Qt's `QString::split` as used by the Cargo test plugin.
 *
 * A QString is modelled as a sequence of characters. `Split` follows
 * `QString::split(sep)` with Qt's default behaviour: the separator is matched
 * left to right at non-overlapping positions and empty parts are KEPT, so a
 * string with n separators always yields n + 1 parts.
 */
module Text {

  type String = seq<char>

  datatype Option<+T> = None | Some(value: T)

  /** `sep` occurs in `s` starting at position `i`. */
  predicate OccursAt(s: String, sep: String, i: nat)
  {
    i + |sep| <= |s| && s[i..i + |sep|] == sep
  }

  ghost predicate Contains(s: String, sep: String)
  {
    exists i: nat :: OccursAt(s, sep, i)
  }

  /** `QString::split(sep)` with empty parts kept. */
  function Split(s: String, sep: String): (parts: seq<String>)
    requires |sep| > 0
    ensures |parts| >= 1
    ensures |parts[0]| <= |s| && parts[0] == s[..|parts[0]|]
    decreases |s|
  {
    if |s| < |sep| then [s]
    else if OccursAt(s, sep, 0) then [[]] + Split(s[|sep|..], sep)
    else
      var rest := Split(s[1..], sep);
      [[s[0]] + rest[0]] + rest[1..]
  }

  /** `QStringList::join(sep)`: the parts with `sep` between neighbours. */
  function Join(parts: seq<String>, sep: String): String
  {
    if |parts| == 0 then []
    else if |parts| == 1 then parts[0]
    else parts[0] + sep + Join(parts[1..], sep)
  }

  lemma JoinPrepend(c: char, parts: seq<String>, sep: String)
    requires |parts| >= 1
    ensures Join([[c] + parts[0]] + parts[1..], sep) == [c] + Join(parts, sep)
  {
  }

  lemma JoinAfterEmpty(parts: seq<String>, sep: String)
    requires |parts| >= 1
    ensures Join([[]] + parts, sep) == sep + Join(parts, sep)
  {
  }

  /** Joining the parts of a split gives back the original string. */
  lemma {:induction false} JoinSplit(s: String, sep: String)
    requires |sep| > 0
    ensures Join(Split(s, sep), sep) == s
    decreases |s|
  {
    if |s| < |sep| {
    } else if OccursAt(s, sep, 0) {
      JoinSplit(s[|sep|..], sep);
      JoinAfterEmpty(Split(s[|sep|..], sep), sep);
      assert s == sep + s[|sep|..];
    } else {
      var rest := Split(s[1..], sep);
      JoinSplit(s[1..], sep);
      JoinPrepend(s[0], rest, sep);
      assert s == [s[0]] + s[1..];
    }
  }

  /** No part of a split contains the separator. */
  lemma {:induction false} SplitPartsFree(s: String, sep: String)
    requires |sep| > 0
    ensures forall k :: 0 <= k < |Split(s, sep)| ==> !Contains(Split(s, sep)[k], sep)
    decreases |s|
  {
    var parts := Split(s, sep);
    if |s| < |sep| {
    } else if OccursAt(s, sep, 0) {
      SplitPartsFree(s[|sep|..], sep);
      var rest := Split(s[|sep|..], sep);
      assert parts == [[]] + rest;
      forall k | 0 <= k < |parts| ensures !Contains(parts[k], sep) {
        if k > 0 {
          assert parts[k] == rest[k - 1];
        }
      }
    } else {
      SplitPartsFree(s[1..], sep);
      var rest := Split(s[1..], sep);
      var p := [s[0]] + rest[0];
      assert parts == [p] + rest[1..];
      assert p == s[..|p|];
      forall i: nat ensures !OccursAt(p, sep, i) {
        if i == 0 && |sep| <= |p| {
          assert p[0..|sep|] == s[0..|sep|];
        } else if i > 0 && i + |sep| <= |p| {
          assert p[i..i + |sep|] == rest[0][i - 1..i - 1 + |sep|];
          assert !OccursAt(rest[0], sep, i - 1);
        }
      }
      forall k | 0 <= k < |parts| ensures !Contains(parts[k], sep) {
        if k > 0 {
          assert parts[k] == rest[k];
        }
      }
    }
  }

  /** A string free of the separator splits into itself alone. */
  lemma {:induction false} SplitNoSeparator(s: String, sep: String)
    requires |sep| > 0 && !Contains(s, sep)
    ensures Split(s, sep) == [s]
    decreases |s|
  {
    if |s| >= |sep| {
      assert !OccursAt(s, sep, 0);
      forall i: nat ensures !OccursAt(s[1..], sep, i) {
        assert !OccursAt(s, sep, i + 1);
        if i + |sep| <= |s[1..]| {
          assert s[1..][i..i + |sep|] == s[i + 1..i + 1 + |sep|];
        }
      }
      SplitNoSeparator(s[1..], sep);
      assert [s[0]] + s[1..] == s;
    }
  }

  /**
   * When the first occurrence of `sep` in `a + sep + b` is the one right
   * after `a`, the split yields `a` and then the split of `b`.
   */
  lemma {:induction false} SplitAfter(a: String, sep: String, b: String)
    requires |sep| > 0
    requires forall i: nat :: i < |a| ==> !OccursAt(a + sep + b, sep, i)
    ensures Split(a + sep + b, sep) == [a] + Split(b, sep)
    decreases |a|
  {
    var s := a + sep + b;
    if a == [] {
      assert s == sep + b;
      assert s[..|sep|] == sep;
      assert s[|sep|..] == b;
    } else {
      assert !OccursAt(s, sep, 0);
      assert s[1..] == a[1..] + sep + b;
      forall i: nat | i < |a[1..]| ensures !OccursAt(a[1..] + sep + b, sep, i) {
        assert !OccursAt(s, sep, i + 1);
        if i + |sep| <= |s[1..]| {
          assert s[1..][i..i + |sep|] == s[i + 1..i + 1 + |sep|];
        }
      }
      SplitAfter(a[1..], sep, b);
      assert [a[0]] + a[1..] == a;
    }
  }

  /**
   * A separator whose first character does not recur in it cannot start
   * inside a separator-free `a` and end in the separator that follows it.
   */
  lemma NoEarlyOccurrence(a: String, sep: String, b: String)
    requires |sep| > 0 && sep[0] !in sep[1..] && !Contains(a, sep)
    ensures forall i: nat :: i < |a| ==> !OccursAt(a + sep + b, sep, i)
  {
    var s := a + sep + b;
    forall i: nat | i < |a| ensures !OccursAt(s, sep, i) {
      if i + |sep| <= |a| {
        assert s[i..i + |sep|] == a[i..i + |sep|];
        assert !OccursAt(a, sep, i);
      } else if i + |sep| <= |s| {
        var j := |a| - i;
        assert 0 < j < |sep|;
        assert s[i..i + |sep|][j] == s[|a|] == sep[0];
        assert sep[j] == sep[1..][j - 1];
      }
    }
  }

  /** Splitting a join of separator-free parts gives back the parts. */
  lemma {:induction false} SplitJoin(parts: seq<String>, sep: String)
    requires |sep| > 0 && sep[0] !in sep[1..]
    requires |parts| >= 1
    requires forall k :: 0 <= k < |parts| ==> !Contains(parts[k], sep)
    ensures Split(Join(parts, sep), sep) == parts
    decreases |parts|
  {
    if |parts| == 1 {
      SplitNoSeparator(parts[0], sep);
    } else {
      var tail := Join(parts[1..], sep);
      NoEarlyOccurrence(parts[0], sep, tail);
      SplitAfter(parts[0], sep, tail);
      SplitJoin(parts[1..], sep);
      assert [parts[0]] + parts[1..] == parts;
    }
  }

  /** For a one-character separator, containment is membership. */
  lemma ContainsChar(s: String, c: char)
    ensures Contains(s, [c]) <==> c in s
  {
    if c in s {
      var i :| 0 <= i < |s| && s[i] == c;
      assert s[i..i + 1] == [c];
      assert OccursAt(s, [c], i);
    }
    forall i: nat | OccursAt(s, [c], i) ensures c in s {
      assert s[i] == s[i..i + 1][0];
    }
  }

  /** A string lacking some character of the separator does not contain it. */
  lemma MissingCharNotContained(s: String, sep: String, j: nat)
    requires j < |sep| && sep[j] !in s
    ensures !Contains(s, sep)
  {
  }

  /** Splitting on one character gives one more part than it has occurrences. */
  lemma {:induction false} SplitCount(s: String, c: char)
    ensures |Split(s, [c])| == multiset(s)[c] + 1
    decreases |s|
  {
    if |s| >= 1 {
      SplitCount(s[1..], c);
      assert s == [s[0]] + s[1..];
      assert multiset(s) == multiset([s[0]]) + multiset(s[1..]);
      assert s[..1] == [s[0]];
    }
  }
}
