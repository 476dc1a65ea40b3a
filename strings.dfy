/** The Python `str` operations the response normaliser is built from:
    `strip()`, `startswith`, `in`, `split` and `join`, on strings of code points. */
module Strings {
  import opened Wrappers

  /** Python's `str.isspace()` for one code point: the characters `strip()`
      removes when called without an argument. */
  predicate IsSpace(c: char) {
    var n := c as int;
    || (0x09 <= n <= 0x0D) || (0x1C <= n <= 0x20) || n == 0x85 || n == 0xA0
    || n == 0x1680 || (0x2000 <= n <= 0x200A) || n == 0x2028 || n == 0x2029
    || n == 0x202F || n == 0x205F || n == 0x3000
  }

  predicate AllSpace(s: string) {
    forall k :: 0 <= k < |s| ==> IsSpace(s[k])
  }

  /** The index of the first non-space character of `s` at or after `i`, or `|s|`. */
  function SkipSpace(s: string, i: nat): (j: nat)
    requires i <= |s|
    ensures i <= j <= |s|
    ensures forall k :: i <= k < j ==> IsSpace(s[k])
    ensures j == |s| || !IsSpace(s[j])
    decreases |s| - i
  {
    if i == |s| || !IsSpace(s[i]) then i else SkipSpace(s, i + 1)
  }

  /** The end of `s[i..j]` once its trailing whitespace is dropped. */
  function SkipSpaceBack(s: string, i: nat, j: nat): (e: nat)
    requires i <= j <= |s|
    ensures i <= e <= j
    ensures forall k :: e <= k < j ==> IsSpace(s[k])
    ensures e == i || !IsSpace(s[e - 1])
    decreases j
  {
    if j == i || !IsSpace(s[j - 1]) then j else SkipSpaceBack(s, i, j - 1)
  }

  /** `s.strip()`: the result is a slice of `s` that neither starts nor ends
      with whitespace, and everything cut off on either side is whitespace. */
  function Strip(s: string): (r: string)
    ensures r == [] || (!IsSpace(r[0]) && !IsSpace(r[|r| - 1]))
    ensures exists i: nat :: SpaceMargins(s, i, |r|) && r == s[i..i + |r|]
    ensures AllSpace(s) <==> r == []
  {
    var i := SkipSpace(s, 0);
    var e := SkipSpaceBack(s, i, |s|);
    assert e > i ==> s[i..e][0] == s[i] && s[i..e][e - i - 1] == s[e - 1];
    assert SpaceMargins(s, i, e - i);
    s[i..e]
  }

  /** Everything in `s` outside the `n` characters starting at `i` is whitespace. */
  predicate SpaceMargins(s: string, i: nat, n: nat) {
    && i + n <= |s|
    && (forall k :: 0 <= k < i ==> IsSpace(s[k]))
    && (forall k :: i + n <= k < |s| ==> IsSpace(s[k]))
  }

  /** `s.startswith(prefix)` */
  predicate StartsWith(s: string, prefix: string) {
    prefix <= s
  }

  /** `p` occurs in `s` starting at index `i`. */
  predicate OccursAt(s: string, p: string, i: nat) {
    i + |p| <= |s| && s[i..i + |p|] == p
  }

  /** `s.find(p)` as an option: the index of the first occurrence of `p` in `s`. */
  function IndexOf(s: string, p: string): (r: Option<nat>)
    ensures r.Some? ==> OccursAt(s, p, r.value) && forall j: nat :: j < r.value ==> !OccursAt(s, p, j)
    ensures r.None? ==> forall j: nat :: !OccursAt(s, p, j)
    decreases |s|
  {
    if OccursAt(s, p, 0) then Some(0)
    else if s == [] then None
    else
      var r := IndexOf(s[1..], p);
      assert forall j: nat :: 1 <= j ==> (OccursAt(s, p, j) <==> OccursAt(s[1..], p, j - 1)) by {
        forall j: nat | 1 <= j ensures OccursAt(s, p, j) <==> OccursAt(s[1..], p, j - 1) {
          if j + |p| <= |s| {
            assert s[1..][j - 1..j - 1 + |p|] == s[j..j + |p|];
          }
        }
      }
      if r.None? then None else Some(r.value + 1)
  }

  /** `p in s` */
  predicate Contains(s: string, p: string) {
    IndexOf(s, p).Some?
  }

  /** The text before the first occurrence of `p`, or all of `s` when there is none. */
  function Before(s: string, p: string): string {
    match IndexOf(s, p)
    case Some(i) => s[..i]
    case None => s
  }

  /** The text after the first occurrence of `p`. */
  function After(s: string, p: string): string
    requires Contains(s, p)
  {
    s[IndexOf(s, p).value + |p|..]
  }

  /** `s.split(sep)` for a non-empty separator. */
  function Split(s: string, sep: string): (r: seq<string>)
    requires sep != []
    ensures |r| >= 1
    decreases |s|
  {
    match IndexOf(s, sep)
    case None => [s]
    case Some(i) => [s[..i]] + Split(s[i + |sep|..], sep)
  }

  /** `sep.join(parts)` */
  function Join(parts: seq<string>, sep: string): string {
    if |parts| == 0 then ""
    else if |parts| == 1 then parts[0]
    else parts[0] + sep + Join(parts[1..], sep)
  }

  /** An occurrence in `s` is an occurrence in any extension of `s`. */
  lemma OccursInExtension(s: string, t: string, p: string, j: nat)
    requires OccursAt(s, p, j)
    ensures OccursAt(s + t, p, j)
  {
    assert (s + t)[j..j + |p|] == s[j..j + |p|];
  }

  /** An occurrence in a prefix of `s` is an occurrence in `s`. */
  lemma OccursInPrefixOf(s: string, n: nat, p: string, j: nat)
    requires n <= |s| && OccursAt(s[..n], p, j)
    ensures OccursAt(s, p, j)
  {
    assert s[..n][j..j + |p|] == s[j..j + |p|];
  }

  /** The text before the first occurrence of `p` holds no occurrence of it. */
  lemma BeforeHasNoOccurrence(s: string, p: string)
    requires p != []
    ensures !Contains(Before(s, p), p)
  {
    if i :| IndexOf(s, p) == Some(i) {
      forall j: nat | OccursAt(s[..i], p, j) ensures false {
        OccursInPrefixOf(s, i, p, j);
      }
    }
  }

  /** The first occurrence in `s` stays the first when text is appended. */
  lemma IndexOfExtend(s: string, t: string, p: string)
    requires Contains(s, p)
    ensures IndexOf(s + t, p) == IndexOf(s, p)
  {
    var i := IndexOf(s, p).value;
    OccursInExtension(s, t, p, i);
    var r := IndexOf(s + t, p).value;
    if r < i {
      OccursWithin(s, t, p, r);
    }
  }

  /** An occurrence in `s + t` that ends within `s` is an occurrence in `s`. */
  lemma OccursWithin(s: string, t: string, p: string, j: nat)
    requires j + |p| <= |s| && OccursAt(s + t, p, j)
    ensures OccursAt(s, p, j)
  {
    assert (s + t)[j..j + |p|] == s[j..j + |p|];
  }

  /** `s.split(sep)[0]` is the text before the first separator. */
  lemma SplitFirst(s: string, sep: string)
    requires sep != []
    ensures Split(s, sep)[0] == Before(s, sep)
  {
  }

  /** When `sep` occurs, `s.split(sep)[1]` is the text between the first
      separator and the next one (or the end). */
  lemma SplitSecond(s: string, sep: string)
    requires sep != [] && Contains(s, sep)
    ensures |Split(s, sep)| >= 2 && Split(s, sep)[1] == Before(After(s, sep), sep)
  {
    SplitFirst(After(s, sep), sep);
  }

  /** Joining the pieces of a split with the same separator gives back the text. */
  lemma {:induction false} SplitJoin(s: string, sep: string)
    requires sep != []
    ensures Join(Split(s, sep), sep) == s
    decreases |s|
  {
    match IndexOf(s, sep)
    case None =>
      assert Split(s, sep) == [s];
    case Some(i) =>
      SplitJoin(s[i + |sep|..], sep);
      SplitJoinStep(s, sep, i);
  }

  lemma SplitJoinStep(s: string, sep: string, i: nat)
    requires sep != [] && IndexOf(s, sep) == Some(i)
    requires Join(Split(s[i + |sep|..], sep), sep) == s[i + |sep|..]
    ensures Join(Split(s, sep), sep) == s
  {
    var rest := s[i + |sep|..];
    var tail := Split(rest, sep);
    assert Split(s, sep) == [s[..i]] + tail;
    JoinCons(s[..i], tail, sep);
    assert s == s[..i] + sep + rest;
  }

  lemma JoinCons(head: string, tail: seq<string>, sep: string)
    requires |tail| >= 1
    ensures Join([head] + tail, sep) == head + sep + Join(tail, sep)
  {
    assert ([head] + tail)[1..] == tail;
  }

  /** Cutting at the first occurrence twice is the same as cutting once. */
  lemma BeforeIdempotent(s: string, p: string)
    requires p != []
    ensures Before(Before(s, p), p) == Before(s, p)
  {
    BeforeHasNoOccurrence(s, p);
  }

  /** `s.split(p)[1].split(p)[0]`: splitting the second piece again on the same
      separator changes nothing, since that piece holds no separator. */
  lemma SecondPieceResplit(s: string, p: string)
    requires p != [] && Contains(s, p)
    ensures |Split(s, p)| >= 2 && Split(Split(s, p)[1], p)[0] == Before(After(s, p), p)
  {
    SplitSecond(s, p);
    SplitFirst(Before(After(s, p), p), p);
    BeforeIdempotent(After(s, p), p);
  }

  /** When the first occurrence of `p` in `body + p` is the one at the end,
      `body` holds no occurrence, and cutting it before `p` keeps all of it. */
  lemma NoEarlierOccurrence(body: string, p: string)
    requires p != [] && IndexOf(body + p, p) == Some(|body|)
    ensures !Contains(body, p) && Before(body, p) == body
  {
    if Contains(body, p) {
      OccursInExtension(body, p, p, IndexOf(body, p).value);
    }
  }

  /** When the first occurrence of `p` in `pre + p` is the one at the end,
      the text after the first occurrence in `pre + p + t` is `t`. */
  lemma AfterFirstOccurrence(pre: string, p: string, t: string)
    requires IndexOf(pre + p, p) == Some(|pre|)
    ensures Contains(pre + p + t, p) && After(pre + p + t, p) == t
  {
    IndexOfExtend(pre + p, t, p);
  }

  /** When the first occurrence of `p` in `body + p` is the one at the end,
      the text before the first occurrence in `body + p + t` is `body`. */
  lemma BeforeFirstOccurrence(body: string, p: string, t: string)
    requires IndexOf(body + p, p) == Some(|body|)
    ensures Before(body + p + t, p) == body
  {
    IndexOfExtend(body + p, t, p);
    assert (body + p + t)[..|body|] == body;
  }

  /** Cutting `body + p + t` anywhere after that first `p` keeps the text before it. */
  lemma BeforeInPrefix(body: string, p: string, t: string, k: nat)
    requires IndexOf(body + p, p) == Some(|body|)
    requires |body| + |p| <= k <= |body| + |p| + |t|
    ensures Before((body + p + t)[..k], p) == body
  {
    var cut := t[..k - |body| - |p|];
    assert (body + p + t)[..k] == body + p + cut;
    BeforeFirstOccurrence(body, p, cut);
  }

  /** A string that begins with `p` contains `p` wherever it occurs. */
  lemma OccursPrefix(s: string, q: string, p: string, i: nat)
    requires StartsWith(q, p) && OccursAt(s, q, i)
    ensures OccursAt(s, p, i)
  {
    assert s[i..i + |p|] == s[i..i + |q|][..|p|];
  }

  /** Text without `p` holds no string that begins with `p`. */
  lemma AbsentPrefix(s: string, q: string, p: string)
    requires StartsWith(q, p) && !Contains(s, p)
    ensures !Contains(s, q)
  {
    if Contains(s, q) {
      OccursPrefix(s, q, p, IndexOf(s, q).value);
    }
  }

  /** Splitting `pre + p + t` on `p`, where that `p` is the first, gives `t`'s
      text before its first `p` as the second piece. */
  lemma SplitAfterFirst(pre: string, p: string, t: string)
    requires p != [] && IndexOf(pre + p, p) == Some(|pre|)
    ensures |Split(pre + p + t, p)| >= 2 && Split(pre + p + t, p)[1] == Before(t, p)
  {
    AfterFirstOccurrence(pre, p, t);
    SplitSecond(pre + p + t, p);
  }

  /** `(pre + p + body + p + rest).split(p)[1].split(p)[0] == body` when the two
      `p` shown are the first two. */
  lemma {:induction false} SecondPieceClosed(pre: string, p: string, body: string, rest: string)
    requires p != [] && IndexOf(pre + p, p) == Some(|pre|) && IndexOf(body + p, p) == Some(|body|)
    ensures Contains(pre + p + body + p + rest, p)
    ensures Before(After(pre + p + body + p + rest, p), p) == body
  {
    Regroup(pre, p, body, p, rest);
    AfterFirstOccurrence(pre, p, body + p + rest);
    BeforeFirstOccurrence(body, p, rest);
  }

  lemma Regroup(a: string, b: string, c: string, d: string, e: string)
    ensures a + b + c + d + e == a + b + (c + d + e)
  {
    assert a + b + c + d + e == (a + b) + (c + d + e);
  }

  /** `(pre + p + body).split(p)[1].split(p)[0] == body` when `body` holds no `p`. */
  lemma SecondPieceUnclosed(pre: string, p: string, body: string)
    requires p != [] && IndexOf(pre + p, p) == Some(|pre|) && !Contains(body, p)
    ensures |Split(pre + p + body, p)| >= 2
    ensures Split(Split(pre + p + body, p)[1], p)[0] == body
  {
    SplitAfterFirst(pre, p, body);
    SplitFirst(body, p);
  }

  /** `(pre + q + body + p + rest).split(q)[1].split(p)[0] == body`, for an opener
      `q` beginning with the closer `p`, when `q` first occurs after `pre`, `p`
      first occurs after `body`, and no `q` starts inside that `p`. */
  lemma OpenedPieceClosed(pre: string, q: string, p: string, body: string, rest: string)
    requires p != [] && StartsWith(q, p)
    requires IndexOf(pre + q, q) == Some(|pre|) && IndexOf(body + p, p) == Some(|body|)
    requires forall k: nat :: |body| < k < |body| + |p| ==> !OccursAt(body + p + rest, q, k)
    ensures |Split(pre + q + body + p + rest, q)| >= 2
    ensures Split(Split(pre + q + body + p + rest, q)[1], p)[0] == body
  {
    var u := body + p + rest;
    assert pre + q + body + p + rest == pre + q + u;
    SplitAfterFirst(pre, q, u);
    SplitFirst(Before(u, q), p);
    var opener := IndexOf(u, q);
    if opener.None? {
      BeforeFirstOccurrence(body, p, rest);
    } else {
      var k := opener.value;
      OccursPrefix(u, q, p, k);
      IndexOfExtend(body + p, rest, p);
      assert k == |body| || |body| + |p| <= k;
      if k == |body| {
        assert u[..k] == body;
        NoEarlierOccurrence(body, p);
      } else {
        BeforeInPrefix(body, p, rest, k);
      }
    }
  }

  /** `(pre + q + body).split(q)[1].split(p)[0] == body` when `body` holds no `p`. */
  lemma OpenedPieceUnclosed(pre: string, q: string, p: string, body: string)
    requires p != [] && StartsWith(q, p) && IndexOf(pre + q, q) == Some(|pre|) && !Contains(body, p)
    ensures |Split(pre + q + body, q)| >= 2
    ensures Split(Split(pre + q + body, q)[1], p)[0] == body
  {
    SplitAfterFirst(pre, q, body);
    AbsentPrefix(body, q, p);
    SplitFirst(body, p);
  }

  /** Splitting text joined with `sep` gives back the parts, when each part
      but the last meets its first separator only where the separator was
      appended, and the last part holds none. */
  lemma {:induction false} JoinSplit(parts: seq<string>, sep: string)
    requires sep != [] && |parts| >= 1
    requires forall k :: 0 <= k < |parts| - 1 ==> IndexOf(parts[k] + sep, sep) == Some(|parts[k]|)
    requires !Contains(parts[|parts| - 1], sep)
    ensures Split(Join(parts, sep), sep) == parts
    decreases |parts|
  {
    if |parts| > 1 {
      var head, tail := parts[0], parts[1..];
      assert forall k :: 0 <= k < |tail| ==> tail[k] == parts[k + 1];
      JoinSplit(tail, sep);
      JoinSplitStep(head, tail, sep);
      assert parts == [head] + tail;
    }
  }

  lemma JoinSplitStep(head: string, tail: seq<string>, sep: string)
    requires sep != [] && |tail| >= 1 && IndexOf(head + sep, sep) == Some(|head|)
    requires Split(Join(tail, sep), sep) == tail
    ensures Split(Join([head] + tail, sep), sep) == [head] + tail
  {
    var joined := Join(tail, sep);
    var s := (head + sep) + joined;
    JoinCons(head, tail, sep);
    IndexOfExtend(head + sep, joined, sep);
    SplitAtFirst(s, sep, |head|);
    assert s[..|head|] == head;
    assert s[|head| + |sep|..] == joined;
  }

  /** Splitting at a known first separator. */
  lemma SplitAtFirst(s: string, sep: string, i: nat)
    requires sep != [] && IndexOf(s, sep) == Some(i)
    ensures Split(s, sep) == [s[..i]] + Split(s[i + |sep|..], sep)
  {
  }

  /** A two-character separator whose characters differ cannot overlap the
      end of a part that does not contain it. */
  lemma SeparatorFirstAtEnd(part: string, sep: string)
    requires |sep| == 2 && sep[0] != sep[1] && !Contains(part, sep)
    ensures IndexOf(part + sep, sep) == Some(|part|)
  {
    var s := part + sep;
    assert s[|part|..|part| + 2] == sep;
    assert OccursAt(s, sep, |part|);
    forall j: nat | j < |part| && OccursAt(s, sep, j) ensures false {
      if j + 2 <= |part| {
        assert s[j..j + 2] == part[j..j + 2];
        assert OccursAt(part, sep, j);
      }
    }
  }
}
