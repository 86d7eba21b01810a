/**
 * The few string operations the passes use, with the meaning LLVM's `StringRef`
 * gives them: `trim()`, `split(char)`, `split(SmallVector, char, -1, KeepEmpty)`,
 * `starts_with` and `ends_with`.
 */
module Strings {

  /** The characters `StringRef::trim()` strips by default (" \t\n\v\f\r"); `isspace` accepts the same set. */
  predicate IsSpace(c: char) {
    c == ' ' || c == '\t' || c == '\n' || c == '\r' || c as int == 11 || c as int == 12
  }

  predicate StartsWith(s: string, prefix: string) {
    |prefix| <= |s| && s[..|prefix|] == prefix
  }

  /** `s` contains `t` as a contiguous piece (`std::string::find(t) != npos`). */
  predicate Contains(s: string, t: string)
    decreases |s|
  {
    StartsWith(s, t) || (s != [] && Contains(s[1..], t))
  }

  /** `StringRef::ltrim()`: drops the leading white space. */
  function TrimLeft(s: string): (r: string)
    ensures |r| <= |s|
  {
    if s != [] && IsSpace(s[0]) then TrimLeft(s[1..]) else s
  }

  /** `StringRef::rtrim()`: drops the trailing white space. */
  function TrimRight(s: string): (r: string)
    ensures |r| <= |s|
  {
    if s != [] && IsSpace(s[|s| - 1]) then TrimRight(s[..|s| - 1]) else s
  }

  /** `StringRef::trim()`: strips white space at both ends. */
  function Trim(s: string): string {
    TrimRight(TrimLeft(s))
  }

  /** `ltrim` keeps a suffix that does not start with white space, and drops only white space. */
  lemma {:induction false} TrimLeftShape(s: string)
    ensures var r := TrimLeft(s);
            r == s[|s| - |r|..] && (r == [] || !IsSpace(r[0]))
            && forall i :: 0 <= i < |s| - |r| ==> IsSpace(s[i])
  {
    if s != [] && IsSpace(s[0]) {
      TrimLeftShape(s[1..]);
      var r := TrimLeft(s);
      forall i | 0 <= i < |s| - |r| ensures IsSpace(s[i]) {
        if i > 0 { assert s[i] == s[1..][i - 1]; }
      }
    }
  }

  /** `rtrim` keeps a prefix that does not end in white space, and drops only white space. */
  lemma {:induction false} TrimRightShape(s: string)
    ensures var r := TrimRight(s);
            r == s[..|r|] && (r == [] || !IsSpace(r[|r| - 1]))
            && forall i :: |r| <= i < |s| ==> IsSpace(s[i])
  {
    if s != [] && IsSpace(s[|s| - 1]) {
      var t := s[..|s| - 1];
      TrimRightShape(t);
      var r := TrimRight(s);
      assert r == t[..|r|] && t[..|r|] == s[..|r|];
      forall i | |r| <= i < |s| ensures IsSpace(s[i]) {
        if i < |s| - 1 { assert s[i] == t[i]; }
      }
    }
  }

  /**
   * What `trim` keeps is the contiguous piece of `s` between its leading and its
   * trailing white space: it neither starts nor ends with white space, and all that
   * is dropped is white space.
   */
  lemma TrimShape(s: string)
    ensures var r := Trim(s); var lo := |s| - |TrimLeft(s)|;
            (r == [] || (!IsSpace(r[0]) && !IsSpace(r[|r| - 1])))
            && lo + |r| <= |s| && r == s[lo..lo + |r|]
            && (forall i :: 0 <= i < lo ==> IsSpace(s[i]))
            && (forall i :: lo + |r| <= i < |s| ==> IsSpace(s[i]))
  {
    var l := TrimLeft(s);
    var r := TrimRight(l);
    var lo := |s| - |l|;
    TrimLeftShape(s);
    TrimRightShape(l);
    PieceOfSuffix(s, lo, r);
    if r != [] { assert r[0] == l[0]; }
  }

  /** A prefix `r` of the suffix `s[lo..]`, followed there by white space only, is the piece `s[lo..lo + |r|]` followed by white space. */
  lemma PieceOfSuffix(s: string, lo: nat, r: string)
    requires lo <= |s| && |r| <= |s| - lo && r == s[lo..][..|r|]
    requires forall i :: |r| <= i < |s| - lo ==> IsSpace(s[lo..][i])
    ensures r == s[lo..lo + |r|]
    ensures forall i :: lo + |r| <= i < |s| ==> IsSpace(s[i])
  {
    forall i | lo + |r| <= i < |s| ensures IsSpace(s[i]) {
      assert s[i] == s[lo..][i - lo];
    }
  }

  /** Trimming is idempotent. */
  lemma TrimIdempotent(s: string)
    ensures Trim(Trim(s)) == Trim(s)
  {
    var t := Trim(s);
    TrimShape(s);
    assert TrimLeft(t) == t;
    assert TrimRight(t) == t;
  }

  /** A string trims to nothing exactly when it is all white space. */
  lemma TrimEmptyIff(s: string)
    ensures Trim(s) == [] <==> forall i :: 0 <= i < |s| ==> IsSpace(s[i])
  {
    TrimShape(s);
    if forall i :: 0 <= i < |s| ==> IsSpace(s[i]) {
      var l := TrimLeft(s);
      TrimLeftShape(s);
    }
  }

  /** Index of the first occurrence of `c` in `s`. */
  function IndexOf(s: string, c: char): (i: nat)
    requires c in s
    ensures i < |s| && s[i] == c && c !in s[..i]
  {
    if s[0] == c then 0 else 1 + IndexOf(s[1..], c)
  }

  /** `StringRef::split(char)`: the parts before and after the first `c`; `(s, "")` when there is none. */
  function SplitFirst(s: string, c: char): (r: (string, string))
    ensures c !in r.0
    ensures c in s ==> s == r.0 + [c] + r.1
    ensures c !in s ==> r == (s, [])
  {
    if c in s then
      var i := IndexOf(s, c);
      assert s == s[..i] + [c] + s[i + 1..];
      (s[..i], s[i + 1..])
    else (s, [])
  }

  /** The pieces of `s` between occurrences of `sep`, empty pieces kept. */
  function SplitAll(s: string, sep: char): (r: seq<string>)
    ensures |r| >= 1
    ensures forall i :: 0 <= i < |r| ==> sep !in r[i]
    decreases |s|
  {
    if sep in s then
      var i := IndexOf(s, sep);
      [s[..i]] + SplitAll(s[i + 1..], sep)
    else [s]
  }

  /** The pieces glued back together with `sep` between them. */
  function Join(parts: seq<string>, sep: char): string
  {
    if parts == [] then []
    else if |parts| == 1 then parts[0]
    else parts[0] + [sep] + Join(parts[1..], sep)
  }

  lemma {:induction false} JoinSnoc(parts: seq<string>, x: string, sep: char)
    requires |parts| >= 1
    ensures Join(parts + [x], sep) == Join(parts, sep) + [sep] + x
  {
    if |parts| > 1 {
      assert (parts + [x])[1..] == parts[1..] + [x];
      JoinSnoc(parts[1..], x, sep);
    }
  }

  /** Splitting then joining gives the original text back. */
  lemma {:induction false} JoinSplit(s: string, sep: char)
    ensures Join(SplitAll(s, sep), sep) == s
    decreases |s|
  {
    if sep in s {
      var i := IndexOf(s, sep);
      var rest := s[i + 1..];
      var tail := SplitAll(rest, sep);
      JoinSplit(rest, sep);
      var parts := [s[..i]] + tail;
      assert SplitAll(s, sep) == parts;
      assert |parts| > 1 && parts[0] == s[..i] && parts[1..] == tail;
      assert Join(parts, sep) == s[..i] + [sep] + Join(tail, sep);
      SplitAround(s, i);
    }
  }

  /** A sequence is the part before index `i`, the element there, and the part after. */
  lemma SplitAround<T>(s: seq<T>, i: nat)
    requires i < |s|
    ensures s == s[..i] + [s[i]] + s[i + 1..]
  {
  }

  /** Joining pieces free of `sep`, then splitting, gives the pieces back. */
  lemma {:induction false} SplitJoin(parts: seq<string>, sep: char)
    requires |parts| >= 1
    requires forall i :: 0 <= i < |parts| ==> sep !in parts[i]
    ensures SplitAll(Join(parts, sep), sep) == parts
  {
    if |parts| > 1 {
      var a, t := parts[0], Join(parts[1..], sep);
      SplitJoin(parts[1..], sep);
      assert Join(parts, sep) == a + [sep] + t;
      SplitAllAt(a, sep, t);
      assert parts == [a] + parts[1..];
    }
  }

  /** The pieces of `a + [x] + b` around position `|a|`. */
  lemma PiecesOf<T>(a: seq<T>, x: T, b: seq<T>)
    ensures var s := a + [x] + b;
            |a| < |s| && s[|a|] == x && s[..|a|] == a && s[|a| + 1..] == b
  {
  }

  /** When `a` holds no `c`, the first `c` of `a + [c] + b` is the one after `a`. */
  lemma IndexOfAfter(a: string, c: char, b: string)
    requires c !in a
    ensures c in a + [c] + b && IndexOf(a + [c] + b, c) == |a|
  {
    PiecesOf(a, c, b);
  }

  /** When `a` holds no `sep`, splitting `a + [sep] + t` gives `a`, then the pieces of `t`. */
  lemma SplitAllAt(a: string, sep: char, t: string)
    requires sep !in a
    ensures SplitAll(a + [sep] + t, sep) == [a] + SplitAll(t, sep)
  {
    IndexOfAfter(a, sep, t);
    PiecesOf(a, sep, t);
  }

  /** The non-empty pieces, in order. */
  function NonEmpty(parts: seq<string>): seq<string> {
    if parts == [] then []
    else if parts[0] == [] then NonEmpty(parts[1..])
    else [parts[0]] + NonEmpty(parts[1..])
  }

  /** The kept pieces are non-empty pieces of `parts`, and every non-empty piece is kept. */
  lemma {:induction false} NonEmptyMembers(parts: seq<string>)
    ensures forall i :: 0 <= i < |NonEmpty(parts)| ==> NonEmpty(parts)[i] != [] && NonEmpty(parts)[i] in parts
    ensures forall p :: p in parts && p != [] ==> p in NonEmpty(parts)
    decreases |parts|
  {
    if parts != [] {
      var r, t := NonEmpty(parts), NonEmpty(parts[1..]);
      NonEmptyMembers(parts[1..]);
      forall i | 0 <= i < |r| ensures r[i] != [] && r[i] in parts {
        if parts[0] == [] {
          assert r[i] == t[i] && t[i] in parts[1..];
        } else if i > 0 {
          assert r[i] == t[i - 1] && t[i - 1] in parts[1..];
        }
      }
      forall p | p in parts && p != [] ensures p in r {
        var k :| 0 <= k < |parts| && parts[k] == p;
        if k > 0 {
          assert parts[1..][k - 1] == p;
        }
      }
    }
  }

  /** A single piece is kept exactly when it is not empty. */
  lemma NonEmptySingle(p: string)
    ensures NonEmpty([p]) == if p == [] then [] else [p]
  {
    assert [p][1..] == [];
  }

  /** Filtering a concatenation filters each part and keeps them in order, repeats included. */
  lemma {:induction false} NonEmptyAppend(a: seq<string>, b: seq<string>)
    ensures NonEmpty(a + b) == NonEmpty(a) + NonEmpty(b)
    decreases |a|
  {
    var c := a + b;
    if a != [] {
      assert c[0] == a[0] && c[1..] == a[1..] + b;
      NonEmptyCons(c);
      NonEmptyCons(a);
      NonEmptyAppend(a[1..], b);
    } else {
      assert c == b;
    }
  }

  /** The first piece is filtered on its own, then the rest. */
  lemma NonEmptyCons(s: seq<string>)
    requires s != []
    ensures NonEmpty(s) == NonEmpty([s[0]]) + NonEmpty(s[1..])
  {
    NonEmptySingle(s[0]);
  }

  /** `StringRef::split(Items, sep, -1, /*KeepEmpty=*/false)`. */
  function SplitNonEmpty(s: string, sep: char): (r: seq<string>)
    ensures forall i :: 0 <= i < |r| ==> r[i] != [] && sep !in r[i]
  {
    var all := SplitAll(s, sep);
    var r := NonEmpty(all);
    NonEmptyMembers(all);
    assert forall i :: 0 <= i < |r| ==> sep !in r[i] by {
      forall i | 0 <= i < |r| ensures sep !in r[i] {
        var k :| 0 <= k < |all| && all[k] == r[i];
      }
    }
    r
  }
}
