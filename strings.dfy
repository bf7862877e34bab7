/** The Python string operations the engine relies on: `key in s`,
    `s.replace(key, value)`, `s.split(sep)` and `sep.join(pieces)`, for the
    non-empty keys and separators the engine uses. */
module Strings {

  /** `s` begins with `prefix`. */
  predicate StartsWith(s: string, prefix: string) {
    |prefix| <= |s| && s[..|prefix|] == prefix
  }

  /** Python's `key in s`: `key` occurs in `s` as a contiguous substring. */
  predicate Contains(s: string, key: string)
    decreases |s|
  {
    StartsWith(s, key) || (|s| > 0 && Contains(s[1..], key))
  }

  /** Python's `s.replace(key, value)`: scanning left to right, each
      occurrence of `key` that does not overlap one already replaced becomes
      `value`. */
  function ReplaceAll(s: string, key: string, value: string): (r: string)
    requires key != []
    decreases |s|
  {
    if s == [] then []
    else if StartsWith(s, key) then value + ReplaceAll(s[|key|..], key, value)
    else [s[0]] + ReplaceAll(s[1..], key, value)
  }

  /** Python's `s.split(sep)`: the pieces between the non-overlapping
      occurrences of `sep` found left to right; never empty, so `"".split(sep)`
      is `[""]`. */
  function Split(s: string, sep: string): (pieces: seq<string>)
    requires sep != []
    ensures |pieces| >= 1
    decreases |s|
  {
    if s == [] then [[]]
    else if StartsWith(s, sep) then [[]] + Split(s[|sep|..], sep)
    else
      var rest := Split(s[1..], sep);
      [[s[0]] + rest[0]] + rest[1..]
  }

  /** Python's `sep.join(pieces)`. */
  function Join(pieces: seq<string>, sep: string): (joined: string) {
    if pieces == [] then []
    else if |pieces| == 1 then pieces[0]
    else pieces[0] + sep + Join(pieces[1..], sep)
  }

  /** Replacing a key that does not occur leaves the string as it was. */
  lemma {:induction false} ReplaceAllAbsent(s: string, key: string, value: string)
    requires key != [] && !Contains(s, key)
    ensures ReplaceAll(s, key, value) == s
  {
    if s != [] {
      ReplaceAllAbsent(s[1..], key, value);
    }
  }

  /** A string that is exactly the key becomes exactly the value. */
  lemma ReplaceAllWhole(key: string, value: string)
    requires key != []
    ensures ReplaceAll(key, key, value) == value
  {
    assert StartsWith(key, key);
    assert key[|key|..] == [];
    assert value + [] == value;
  }

  /** Replacing a key by itself leaves the string as it was. */
  lemma {:induction false} ReplaceAllBySelf(s: string, key: string)
    requires key != []
    ensures ReplaceAll(s, key, key) == s
    decreases |s|
  {
    if s == [] {
    } else if StartsWith(s, key) {
      ReplaceAllBySelf(s[|key|..], key);
      assert s == key + s[|key|..];
    } else {
      ReplaceAllBySelf(s[1..], key);
      assert s == [s[0]] + s[1..];
    }
  }

  /** Joining pieces whose first piece gained a leading character. */
  lemma JoinConsHead(c: char, pieces: seq<string>, sep: string)
    requires |pieces| >= 1
    ensures Join([[c] + pieces[0]] + pieces[1..], sep) == [c] + Join(pieces, sep)
  {
    var q := [[c] + pieces[0]] + pieces[1..];
    assert q[1..] == pieces[1..];
  }

  /** `s.replace(key, value) == value.join(s.split(key))`: replacement is
      splitting at the key and joining with the value. */
  lemma {:induction false} ReplaceAllIsJoinOfSplit(s: string, key: string, value: string)
    requires key != []
    ensures ReplaceAll(s, key, value) == Join(Split(s, key), value)
    decreases |s|
  {
    if s == [] {
    } else if StartsWith(s, key) {
      ReplaceAllIsJoinOfSplit(s[|key|..], key, value);
      var rest := Split(s[|key|..], key);
      assert Split(s, key) == [[]] + rest;
      assert ([[]] + rest)[1..] == rest;
    } else {
      ReplaceAllIsJoinOfSplit(s[1..], key, value);
      JoinConsHead(s[0], Split(s[1..], key), value);
    }
  }

  /** `sep.join(s.split(sep)) == s`: splitting loses nothing. */
  lemma SplitJoinRoundTrip(s: string, sep: string)
    requires sep != []
    ensures Join(Split(s, sep), sep) == s
  {
    ReplaceAllIsJoinOfSplit(s, sep, sep);
    ReplaceAllBySelf(s, sep);
  }

  /** The first piece of a split is a prefix of the string. */
  lemma {:induction false} SplitHeadIsPrefix(s: string, sep: string)
    requires sep != []
    ensures StartsWith(s, Split(s, sep)[0])
    decreases |s|
  {
    if s != [] && !StartsWith(s, sep) {
      SplitHeadIsPrefix(s[1..], sep);
      var head := Split(s[1..], sep)[0];
      assert Split(s, sep)[0] == [s[0]] + head;
      assert s[..1 + |head|] == [s[0]] + s[1..][..|head|];
    }
  }

  /** Prepending the first character of `s` to a separator-free prefix of
      `s[1..]` keeps it separator-free when `s` does not start with `sep`. */
  lemma ExtendedPrefixAvoidsSep(s: string, head: string, sep: string)
    requires sep != [] && s != [] && !StartsWith(s, sep)
    requires StartsWith(s[1..], head) && !Contains(head, sep)
    ensures !Contains([s[0]] + head, sep)
  {
    var h := [s[0]] + head;
    assert h[1..] == head;
  }

  /** No piece of `s.split(sep)` contains `sep`: every occurrence was cut. */
  lemma {:induction false} SplitPiecesAvoidSep(s: string, sep: string)
    requires sep != []
    ensures forall i :: 0 <= i < |Split(s, sep)| ==> !Contains(Split(s, sep)[i], sep)
    decreases |s|
  {
    if s == [] {
    } else if StartsWith(s, sep) {
      SplitPiecesAvoidSep(s[|sep|..], sep);
      var rest := Split(s[|sep|..], sep);
      assert Split(s, sep) == [[]] + rest;
    } else {
      SplitPiecesAvoidSep(s[1..], sep);
      var rest := Split(s[1..], sep);
      SplitHeadIsPrefix(s[1..], sep);
      ExtendedPrefixAvoidsSep(s, rest[0], sep);
      assert Split(s, sep) == [[s[0]] + rest[0]] + rest[1..];
    }
  }

  /** Splitting a string without the separator yields just that string. */
  lemma {:induction false} SplitAbsent(s: string, sep: string)
    requires sep != [] && !Contains(s, sep)
    ensures Split(s, sep) == [s]
    decreases |s|
  {
    if s != [] {
      SplitAbsent(s[1..], sep);
      assert [s[0]] + s[1..] == s;
    }
  }

  /** With a one-character separator, a piece free of it followed by the
      separator splits off as the first piece. */
  lemma {:induction false} SplitAfterPiece(x: string, sep: string, rest: string)
    requires |sep| == 1 && !Contains(x, sep)
    ensures Split(x + sep + rest, sep) == [x] + Split(rest, sep)
    decreases |x|
  {
    var s := x + sep + rest;
    if x == [] {
      assert s == sep + rest;
      assert StartsWith(s, sep);
      assert s[|sep|..] == rest;
    } else {
      assert !StartsWith(x, sep);
      assert s[0] == x[0] && s[..1] == x[..1];
      assert !StartsWith(s, sep);
      assert s[1..] == x[1..] + sep + rest;
      SplitAfterPiece(x[1..], sep, rest);
      assert [x[0]] + x[1..] == x;
    }
  }

  /** `sep.join(pieces).split(sep) == pieces` when no piece contains the
      one-character separator: joining loses nothing either. */
  lemma {:induction false} JoinSplitRoundTrip(pieces: seq<string>, sep: string)
    requires |sep| == 1 && |pieces| >= 1
    requires forall i :: 0 <= i < |pieces| ==> !Contains(pieces[i], sep)
    ensures Split(Join(pieces, sep), sep) == pieces
    decreases |pieces|
  {
    if |pieces| == 1 {
      SplitAbsent(pieces[0], sep);
    } else {
      JoinSplitRoundTrip(pieces[1..], sep);
      SplitAfterPiece(pieces[0], sep, Join(pieces[1..], sep));
      assert [pieces[0]] + pieces[1..] == pieces;
    }
  }

  /** Joining two non-empty lists of pieces puts one separator between them. */
  lemma {:induction false} JoinAppend(a: seq<string>, b: seq<string>, sep: string)
    requires |a| >= 1 && |b| >= 1
    ensures Join(a + b, sep) == Join(a, sep) + sep + Join(b, sep)
    decreases |a|
  {
    if |a| == 1 {
      assert (a + b)[1..] == b;
    } else {
      JoinAppend(a[1..], b, sep);
      assert (a + b)[1..] == a[1..] + b;
    }
  }

  /** A key occurs only in a string at least as long as the key. */
  lemma {:induction false} ContainsNeedsRoom(s: string, key: string)
    ensures Contains(s, key) ==> |key| <= |s|
    decreases |s|
  {
    if |s| > 0 {
      ContainsNeedsRoom(s[1..], key);
    }
  }

  /** An occurrence inside `b` is an occurrence inside `a + b`. */
  lemma {:induction false} ContainsInSuffix(a: string, b: string, key: string)
    requires Contains(b, key)
    ensures Contains(a + b, key)
    decreases |a|
  {
    if a == [] {
      assert a + b == b;
    } else {
      ContainsInSuffix(a[1..], b, key);
      assert (a + b)[1..] == a[1..] + b;
    }
  }

  /** An occurrence inside `a` is an occurrence inside `a + b`. */
  lemma {:induction false} ContainsInPrefix(a: string, b: string, key: string)
    requires Contains(a, key)
    ensures Contains(a + b, key)
    decreases |a|
  {
    if StartsWith(a, key) {
      assert (a + b)[..|key|] == a[..|key|];
    } else {
      ContainsInPrefix(a[1..], b, key);
      assert (a + b)[1..] == a[1..] + b;
    }
  }

  /** A prefix that never holds the key's first character cannot hold the
      start of an occurrence, so every occurrence lies in what follows it. */
  lemma {:induction false} ContainsAfterPrefix(a: string, s: string, key: string)
    requires key != [] && forall i :: 0 <= i < |a| ==> a[i] != key[0]
    ensures Contains(a + s, key) ==> Contains(s, key)
    decreases |a|
  {
    if a == [] {
      assert a + s == s;
    } else {
      assert (a + s)[0] == a[0];
      ContainsAfterPrefix(a[1..], s, key);
      assert (a + s)[1..] == a[1..] + s;
    }
  }

  /** A string that differs from the key at some position `j` within both,
      and never holds the key's first character after its own first one,
      does not contain the key. */
  lemma NotContainsPastFirst(s: string, key: string, j: nat)
    requires key != [] && j < |s| && j < |key| && s[j] != key[j]
    requires forall i :: 1 <= i < |s| ==> s[i] != key[0]
    ensures !Contains(s, key)
  {
    assert |key| <= |s| ==> s[..|key|][j] != key[j];
    var rest := s[1..];
    assert forall i :: 0 <= i < |rest| ==> rest[i] != key[0];
    ContainsAfterPrefix(rest, [], key);
    assert rest + [] == rest;
  }

  /** A string holding the separator splits into at least two pieces. */
  lemma {:induction false} SplitAtSep(s: string, sep: string)
    requires sep != [] && Contains(s, sep)
    ensures |Split(s, sep)| >= 2
    decreases |s|
  {
    if !StartsWith(s, sep) {
      SplitAtSep(s[1..], sep);
    }
  }

  /** Joining two or more pieces puts the separator in the result. */
  lemma JoinHasSep(pieces: seq<string>, sep: string)
    requires |pieces| >= 2
    ensures Contains(Join(pieces, sep), sep)
  {
    var rest := sep + Join(pieces[1..], sep);
    assert StartsWith(rest, sep) by { assert rest[..|sep|] == sep; }
    ContainsInSuffix(pieces[0], rest, sep);
    assert Join(pieces, sep) == pieces[0] + rest;
  }
}
