/** The few Python string operations the downloader relies on, on `string` (a sequence of chars). */
module Text {

  /** str.startswith */
  predicate StartsWith(s: string, prefix: string) {
    |prefix| <= |s| && s[..|prefix|] == prefix
  }

  /** str.endswith */
  predicate EndsWith(s: string, suffix: string) {
    |suffix| <= |s| && s[|s| - |suffix|..] == suffix
  }

  /** The characters for which str.isspace() holds; str.strip() with no argument removes exactly these. */
  predicate IsSpace(c: char) {
    || c == ' '
    || ('\t' <= c <= '\r')
    || ('\U{1C}' <= c <= '\U{1F}')
    || c == '\U{85}' || c == '\U{A0}' || c == '\U{1680}'
    || ('\U{2000}' <= c <= '\U{200A}')
    || c == '\U{2028}' || c == '\U{2029}' || c == '\U{202F}' || c == '\U{205F}' || c == '\U{3000}'
  }

  /** Drops leading whitespace. */
  function TrimStart(s: string): (r: string)
    ensures |r| <= |s|
  {
    if s != [] && IsSpace(s[0]) then TrimStart(s[1..]) else s
  }

  /** TrimStart(s) is the longest suffix of `s` that does not start with whitespace: what it
      removes is whitespace, and what it keeps does not start with whitespace. */
  lemma {:induction false} TrimStartSpec(s: string)
    ensures var r := TrimStart(s);
            s[|s| - |r|..] == r
            && (forall k :: 0 <= k < |s| - |r| ==> IsSpace(s[k]))
            && (r != [] ==> !IsSpace(r[0]))
  {
    if s != [] && IsSpace(s[0]) {
      TrimStartSpec(s[1..]);
    }
  }

  /** Drops trailing whitespace. */
  function TrimEnd(s: string): (r: string)
    ensures |r| <= |s|
  {
    if s != [] && IsSpace(s[|s| - 1]) then TrimEnd(s[..|s| - 1]) else s
  }

  /** TrimEnd(s) is the longest prefix of `s` that does not end with whitespace. */
  lemma {:induction false} TrimEndSpec(s: string)
    ensures var r := TrimEnd(s);
            s[..|r|] == r
            && (forall k :: |r| <= k < |s| ==> IsSpace(s[k]))
            && (r != [] ==> !IsSpace(r[|r| - 1]))
  {
    if s != [] && IsSpace(s[|s| - 1]) {
      TrimEndSpec(s[..|s| - 1]);
    }
  }

  /** str.strip() with no argument. */
  function Strip(s: string): (r: string)
    ensures |r| <= |s|
  {
    TrimEnd(TrimStart(s))
  }

  /** A prefix of s[i..] is the slice of `s` that starts at `i`, and what follows it in `s` is
      what follows it in s[i..]. */
  lemma PrefixOfDrop(s: string, i: nat, t: string, r: string)
    requires i <= |s| && s[i..] == t && |r| <= |t| && t[..|r|] == r
    ensures i + |r| <= |s| && s[i..i + |r|] == r
    ensures forall k :: i + |r| <= k < |s| ==> s[k] == t[k - i]
    ensures r != [] ==> r[0] == t[0]
  {
    assert forall k :: 0 <= k < |r| ==> r[k] == s[i + k];
  }

  /** Strip(s) is the slice of `s` that has only whitespace before it and only whitespace after
      it, and that neither starts nor ends with whitespace. */
  lemma StripSpec(s: string)
    ensures var r := Strip(s); var i := |s| - |TrimStart(s)|;
            i + |r| <= |s| && s[i..i + |r|] == r
            && (forall k :: 0 <= k < i ==> IsSpace(s[k]))
            && (forall k :: i + |r| <= k < |s| ==> IsSpace(s[k]))
            && (r != [] ==> !IsSpace(r[0]) && !IsSpace(r[|r| - 1]))
  {
    var t := TrimStart(s);
    TrimStartSpec(s);
    TrimEndSpec(t);
    PrefixOfDrop(s, |s| - |t|, t, TrimEnd(t));
  }

  /** Index of the first `c` in `s`, or |s| when there is none. */
  function IndexOf(s: string, c: char): (i: nat)
    ensures i <= |s| && (i < |s| ==> s[i] == c)
  {
    if s == [] || s[0] == c then 0 else 1 + IndexOf(s[1..], c)
  }

  /** No `c` comes before IndexOf(s, c). */
  lemma {:induction false} IndexOfSpec(s: string, c: char)
    ensures forall k :: 0 <= k < IndexOf(s, c) ==> s[k] != c
  {
    if s != [] && s[0] != c {
      IndexOfSpec(s[1..], c);
    }
  }

  /** A separator with none before it is the first one. */
  lemma {:induction false} IndexOfAt(s: string, j: nat, c: char)
    requires j < |s| && s[j] == c && c !in s[..j]
    ensures IndexOf(s, c) == j
    decreases j
  {
    if j > 0 {
      assert s[0] == s[..j][0];
      assert s[1..][..j - 1] == s[..j][1..];
      IndexOfAt(s[1..], j - 1, c);
    }
  }

  /** Number of occurrences of `c` in `s`. */
  function CountChar(s: string, c: char): (r: nat) {
    if s == [] then 0 else (if s[0] == c then 1 else 0) + CountChar(s[1..], c)
  }

  /** Counting over a concatenation adds the counts. */
  lemma {:induction false} CountAppend(a: string, b: string, c: char)
    ensures CountChar(a + b, c) == CountChar(a, c) + CountChar(b, c)
  {
    if a != [] {
      assert (a + b)[0] == a[0];
      assert (a + b)[1..] == a[1..] + b;
      CountAppend(a[1..], b, c);
    } else {
      assert a + b == b;
    }
  }

  /** A string without `c` counts none. */
  lemma {:induction false} CountFree(s: string, c: char)
    requires c !in s
    ensures CountChar(s, c) == 0
  {
    if s != [] {
      CountFree(s[1..], c);
    }
  }

  /** str.split(c) for a one-character separator: the pieces between consecutive separators,
      never an empty list ("".split(":") is [""]). */
  function Split(s: string, c: char): (parts: seq<string>)
    ensures |parts| >= 1
    decreases |s|
  {
    var i := IndexOf(s, c);
    if i == |s| then [s] else [s[..i]] + Split(s[i + 1..], c)
  }

  /** No piece of a split contains the separator. */
  lemma {:induction false} SplitPiecesFree(s: string, c: char)
    ensures forall k :: 0 <= k < |Split(s, c)| ==> c !in Split(s, c)[k]
    decreases |s|
  {
    var i := IndexOf(s, c);
    IndexOfSpec(s, c);
    if i < |s| {
      SplitPiecesFree(s[i + 1..], c);
    }
  }

  /** c.join(parts) */
  function Join(parts: seq<string>, c: char): (r: string) {
    if |parts| == 0 then "" else if |parts| == 1 then parts[0] else parts[0] + [c] + Join(parts[1..], c)
  }

  /** The first piece of a split is the string up to its first separator: a separator-free
      prefix that is the whole string or is followed by a separator. */
  lemma SplitFirst(s: string, c: char)
    ensures var h := Split(s, c)[0];
            |h| <= |s| && s[..|h|] == h && c !in h && (|h| < |s| ==> s[|h|] == c)
  {
    IndexOfSpec(s, c);
  }

  /** A prefix of a prefix is a prefix, and a character missing from the longer one is missing
      from the shorter one. */
  lemma PrefixOfPrefix(s: string, mid: string, h: string, c: char)
    requires |mid| <= |s| && s[..|mid|] == mid && |h| <= |mid| && mid[..|h|] == h
    ensures s[..|h|] == h && (|h| < |mid| ==> s[|h|] == mid[|h|])
    ensures c !in mid ==> c !in h
  {
    assert forall k :: 0 <= k < |h| ==> h[k] == mid[k];
  }

  /** A separator-free head splits off as one piece. */
  lemma SplitAround(a: string, b: string, c: char)
    requires c !in a
    ensures Split(a + [c] + b, c) == [a] + Split(b, c)
  {
    var s := a + [c] + b;
    IndexOfSpec(s, c);
    assert s[|a|] == c;
    assert s[..|a|] == a;
    assert s[|a| + 1..] == b;
  }

  /** A separator-free string is its own only piece. */
  lemma SplitNone(a: string, c: char)
    requires c !in a
    ensures Split(a, c) == [a]
  {
  }

  /** One step of a split: the piece before the first separator, then the split of the rest. */
  lemma SplitStep(s: string, c: char)
    requires IndexOf(s, c) < |s|
    ensures Split(s, c) == [s[..IndexOf(s, c)]] + Split(s[IndexOf(s, c) + 1..], c)
  {
  }

  /** One step of a join. */
  lemma JoinCons(a: string, tail: seq<string>, c: char)
    requires |tail| >= 1
    ensures Join([a] + tail, c) == a + [c] + Join(tail, c)
  {
    assert ([a] + tail)[1..] == tail;
  }

  /** Cutting a string around one of its separators and gluing it back gives the string. */
  lemma Reglue(s: string, i: nat, c: char)
    requires i < |s| && s[i] == c
    ensures s[..i] + [c] + s[i + 1..] == s
  {
    assert s[i..] == [c] + s[i + 1..];
  }

  /** Three pieces joined. */
  lemma JoinThree(parts: seq<string>, c: char)
    requires |parts| == 3
    ensures Join(parts, c) == parts[0] + [c] + parts[1] + [c] + parts[2]
  {
    JoinCons(parts[0], parts[1..], c);
    JoinCons(parts[1], parts[2..], c);
    assert [parts[0]] + parts[1..] == parts;
    assert [parts[1]] + parts[2..] == parts[1..];
  }

  /** Joining the pieces of a split gives back the string. */
  lemma {:induction false} SplitJoin(s: string, c: char)
    ensures Join(Split(s, c), c) == s
    decreases |s|
  {
    var i := IndexOf(s, c);
    if i < |s| {
      SplitJoin(s[i + 1..], c);
      SplitStep(s, c);
      JoinCons(s[..i], Split(s[i + 1..], c), c);
      Reglue(s, i, c);
    }
  }

  /** Splitting the join of separator-free pieces gives back the pieces. */
  lemma {:induction false} JoinSplit(parts: seq<string>, c: char)
    requires |parts| >= 1
    requires forall k :: 0 <= k < |parts| ==> c !in parts[k]
    ensures Split(Join(parts, c), c) == parts
  {
    if |parts| == 1 {
      SplitNone(parts[0], c);
    } else {
      JoinSplit(parts[1..], c);
      SplitAround(parts[0], Join(parts[1..], c), c);
      assert [parts[0]] + parts[1..] == parts;
    }
  }

  /** A split has one more piece than the string has separators. */
  lemma {:induction false} SplitCount(s: string, c: char)
    ensures |Split(s, c)| == CountChar(s, c) + 1
    decreases |s|
  {
    var i := IndexOf(s, c);
    IndexOfSpec(s, c);
    CountPrefixFree(s, c, i);
    if i < |s| {
      SplitCount(s[i + 1..], c);
      CountSkip(s[i..], c);
      assert s[i..][1..] == s[i + 1..];
    }
  }

  /** Skipping a separator-free prefix does not change the count. */
  lemma {:induction false} CountPrefixFree(s: string, c: char, i: nat)
    requires i <= |s| && c !in s[..i]
    ensures CountChar(s, c) == CountChar(s[i..], c)
    decreases i
  {
    if i > 0 {
      assert s[0] == s[..i][0];
      assert s[1..][..i - 1] == s[..i][1..];
      CountPrefixFree(s[1..], c, i - 1);
      assert s[1..][i - 1..] == s[i..];
    }
  }

  /** One leading separator counts once. */
  lemma CountSkip(s: string, c: char)
    requires s != [] && s[0] == c
    ensures CountChar(s, c) == 1 + CountChar(s[1..], c)
  {
  }

  /** The last element of a list with an element put in front is the last element of the list. */
  lemma LastOfCons(a: string, tail: seq<string>)
    requires |tail| >= 1
    ensures var p := [a] + tail; p[|p| - 1] == tail[|tail| - 1]
  {
  }

  /** No separator comes before the first one. */
  lemma PrefixFree(s: string, c: char)
    ensures c !in s[..IndexOf(s, c)]
  {
    IndexOfSpec(s, c);
  }

  /** The first separator comes no later than any separator. */
  lemma IndexOfFirst(s: string, j: nat, c: char)
    requires j < |s| && s[j] == c
    ensures IndexOf(s, c) <= j
  {
    IndexOfSpec(s, c);
  }

  /** After a separator, a separator-free tail is the last piece. */
  lemma {:induction false} SplitLastAfter(a: string, b: string, c: char)
    requires c !in b
    ensures var parts := Split(a + [c] + b, c); parts[|parts| - 1] == b
    decreases |a|
  {
    var s := a + [c] + b;
    var i := IndexOf(s, c);
    IndexOfFirst(s, |a|, c);
    if i == |a| {
      PrefixFree(s, c);
      assert s[..i] == a;
      SplitAround(a, b, c);
      SplitNone(b, c);
    } else {
      var rest := a[i + 1..];
      assert s[i + 1..] == rest + [c] + b;
      SplitStep(s, c);
      SplitLastAfter(rest, b, c);
      LastOfCons(s[..i], Split(rest + [c] + b, c));
    }
  }
}
