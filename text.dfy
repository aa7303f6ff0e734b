/** The string operations the action relies on, restricted to ASCII: Python's
    str.strip, str.upper, str.lower, str.replace of one character, the `in`
    substring test, str.split with a separator, and posixpath.join; and the
    join by which the split is specified. */
module Text {
  import opened Outcomes

  /** Python's str.isspace() on ASCII: tab, line feed, vertical tab, form feed,
      carriage return, the separators 0x1C to 0x1F, and space. */
  predicate IsSpace(c: char) {
    9 <= c as int <= 13 || 28 <= c as int <= 32
  }

  /** Every character of `s` is whitespace (this includes the empty string). */
  predicate IsBlank(s: string) {
    forall k :: 0 <= k < |s| ==> IsSpace(s[k])
  }

  /** Neither end of `s` is whitespace: what str.strip() leaves. */
  predicate IsStripped(s: string) {
    s == [] || (!IsSpace(s[0]) && !IsSpace(s[|s| - 1]))
  }

  function TrimStart(s: string): (r: string)
    ensures |r| <= |s| && r == s[|s| - |r|..]
    ensures IsBlank(s[..|s| - |r|])
    ensures r != [] ==> !IsSpace(r[0])
  {
    if s != [] && IsSpace(s[0]) then
      var rest := s[1..];
      var r := TrimStart(rest);
      assert s[..|s| - |r|] == [s[0]] + rest[..|rest| - |r|];
      r
    else s
  }

  function TrimEnd(s: string): (r: string)
    ensures |r| <= |s| && r == s[..|r|]
    ensures IsBlank(s[|r|..])
    ensures r != [] ==> !IsSpace(r[|r| - 1])
  {
    if s != [] && IsSpace(s[|s| - 1]) then
      var init := s[..|s| - 1];
      var r := TrimEnd(init);
      assert s[|r|..] == init[|r|..] + [s[|s| - 1]];
      r
    else s
  }

  /** The number of whitespace characters str.strip() removes from the front. */
  function LeadingSpace(s: string): (n: nat)
    ensures n <= |s| && IsBlank(s[..n])
  {
    |s| - |TrimStart(s)|
  }

  /** Python's str.strip() with no argument: `s` with the whitespace at both
      ends removed, and nothing else changed. */
  function Strip(s: string): (r: string)
    ensures IsStripped(r)
    ensures LeadingSpace(s) + |r| <= |s|
    ensures r == s[LeadingSpace(s)..LeadingSpace(s) + |r|]
    ensures IsBlank(s[LeadingSpace(s) + |r|..])
  {
    var t := TrimStart(s);
    var n := LeadingSpace(s);
    var r := TrimEnd(t);
    SliceOfSuffix(s, n, t, r);
    r
  }

  /** A prefix `r` of the suffix `t` of `s` that starts at `n` is the slice of
      `s` from `n`, and what follows `r` in `t` is what follows it in `s`. */
  lemma SliceOfSuffix(s: string, n: nat, t: string, r: string)
    requires n <= |s| && t == s[n..]
    requires |r| <= |t| && r == t[..|r|]
    ensures n + |r| <= |s| && r == s[n..n + |r|]
    ensures s[n + |r|..] == t[|r|..]
    ensures r != [] ==> r[0] == t[0]
  {
  }

  /** Stripping yields the empty string exactly when `s` is all whitespace. */
  lemma StripEmptyIffBlank(s: string)
    ensures Strip(s) == "" <==> IsBlank(s)
  {
    var n := LeadingSpace(s);
    if Strip(s) == "" {
      forall k | 0 <= k < |s| ensures IsSpace(s[k]) {
        assert s[..n][k] == s[k];
      }
    } else {
      var r := Strip(s);
      assert s[n] == r[0];
    }
  }

  /** A string without whitespace at its ends is its own strip. */
  lemma StripStripped(s: string)
    requires IsStripped(s)
    ensures Strip(s) == s
  {
  }

  /** Stripping twice is stripping once. */
  lemma StripIdempotent(s: string)
    ensures Strip(Strip(s)) == Strip(s)
  {
    StripStripped(Strip(s));
  }

  /** Strip removes exactly the blank padding around a text that starts and
      ends with non-whitespace. */
  lemma StripPadded(before: string, text: string, after: string)
    requires IsBlank(before) && IsBlank(after)
    requires text != "" && IsStripped(text)
    ensures Strip(before + text + after) == text
  {
    var rest := text + after;
    assert rest[0] == text[0];
    assert before + text + after == before + rest;
    TrimStartPadded(before, rest);
    TrimEndPadded(text, after);
    assert TrimStart(before + text + after) == rest;
  }

  lemma {:induction false} TrimStartPadded(before: string, rest: string)
    requires IsBlank(before)
    requires rest != [] && !IsSpace(rest[0])
    ensures TrimStart(before + rest) == rest
    decreases |before|
  {
    if before != [] {
      var s := before + rest;
      assert s[0] == before[0] && IsSpace(s[0]);
      assert s[1..] == before[1..] + rest;
      TrimStartPadded(before[1..], rest);
    } else {
      assert before + rest == rest;
    }
  }

  lemma {:induction false} TrimEndPadded(rest: string, after: string)
    requires IsBlank(after)
    requires rest != [] && !IsSpace(rest[|rest| - 1])
    ensures TrimEnd(rest + after) == rest
    decreases |after|
  {
    if after != [] {
      var shorter := after[..|after| - 1];
      var s := rest + after;
      assert s[|s| - 1] == after[|after| - 1] && IsSpace(s[|s| - 1]);
      assert s[..|s| - 1] == rest + shorter;
      TrimEndPadded(rest, shorter);
    } else {
      assert rest + after == rest;
    }
  }

  // ---------------------------------------------------------------------
  // Case mapping and character replacement

  /** ASCII str.upper() of one character. */
  function UpperChar(c: char): char {
    if 'a' <= c <= 'z' then (c as int - 32) as char else c
  }

  /** ASCII str.lower() of one character. */
  function LowerChar(c: char): char {
    if 'A' <= c <= 'Z' then (c as int + 32) as char else c
  }

  function Upper(s: string): (r: string)
    ensures |r| == |s| && forall k :: 0 <= k < |s| ==> r[k] == UpperChar(s[k])
  {
    seq(|s|, k requires 0 <= k < |s| => UpperChar(s[k]))
  }

  function Lower(s: string): (r: string)
    ensures |r| == |s| && forall k :: 0 <= k < |s| ==> r[k] == LowerChar(s[k])
  {
    seq(|s|, k requires 0 <= k < |s| => LowerChar(s[k]))
  }

  /** str.replace(from, to) for single-character arguments. */
  function Replace(s: string, from: char, to: char): (r: string)
    ensures |r| == |s|
    ensures forall k :: 0 <= k < |s| ==> r[k] == if s[k] == from then to else s[k]
  {
    seq(|s|, k requires 0 <= k < |s| => if s[k] == from then to else s[k])
  }

  // ---------------------------------------------------------------------
  // Substrings

  /** `m` occurs in `s` starting at index `k`. */
  predicate OccursAt(s: string, m: string, k: int) {
    0 <= k && k + |m| <= |s| && s[k..k + |m|] == m
  }

  /** Python's `m in s`. */
  predicate Contains(s: string, m: string) {
    exists k | 0 <= k <= |s| - |m| :: OccursAt(s, m, k)
  }

  predicate StartsWith(s: string, p: string) {
    |p| <= |s| && s[..|p|] == p
  }

  predicate EndsWith(s: string, p: string) {
    |p| <= |s| && s[|s| - |p|..] == p
  }

  /** The first index at or after `from` where `m` occurs in `s`. */
  function IndexFrom(s: string, m: string, from: nat): (r: Option<nat>)
    ensures r.Some? ==> from <= r.value && OccursAt(s, m, r.value)
    ensures r.Some? ==> forall j :: from <= j < r.value ==> !OccursAt(s, m, j)
    ensures r.None? ==> forall j :: from <= j ==> !OccursAt(s, m, j)
    decreases |s| - from
  {
    if from + |m| > |s| then None
    else if OccursAt(s, m, from) then Some(from)
    else IndexFrom(s, m, from + 1)
  }

  /** Python's str.find: the first occurrence of `m` in `s`, if any. */
  function IndexOf(s: string, m: string): (r: Option<nat>)
    ensures r.Some? ==> OccursAt(s, m, r.value) && forall j :: 0 <= j < r.value ==> !OccursAt(s, m, j)
    ensures r.None? <==> !Contains(s, m)
  {
    IndexFrom(s, m, 0)
  }

  /** An occurrence inside a slice is an occurrence in the whole string. */
  lemma OccursInSlice(s: string, m: string, i: nat, j: nat, k: int)
    requires i <= j <= |s|
    requires OccursAt(s[i..j], m, k)
    ensures OccursAt(s, m, i + k)
  {
    var inner, outer := s[i..j][k..k + |m|], s[i + k..i + k + |m|];
    forall t | 0 <= t < |m| ensures inner[t] == outer[t] {
      assert inner[t] == s[i..j][k + t];
    }
    assert inner == outer;
  }

  // ---------------------------------------------------------------------
  // Splitting and joining

  /** Python's sep.join(parts): not called by the action, it is the inverse
      by which Split is specified. */
  function Join(parts: seq<string>, sep: string): string
    decreases |parts|
  {
    if |parts| == 0 then ""
    else if |parts| == 1 then parts[0]
    else parts[0] + sep + Join(parts[1..], sep)
  }

  /** The piece of `s` before its first occurrence `i` of `sep` contains no
      `sep`, and `s` is that piece, `sep` and the text after it. */
  lemma SplitFirst(s: string, sep: string, i: nat)
    requires sep != ""
    requires IndexOf(s, sep) == Some(i)
    ensures i + |sep| <= |s|
    ensures s == s[..i] + sep + s[i + |sep|..]
    ensures !Contains(s[..i], sep)
  {
    assert s[i..i + |sep|] == sep;
    assert s == s[..i] + s[i..i + |sep|] + s[i + |sep|..];
    forall k | 0 <= k <= i - |sep| ensures !OccursAt(s[..i], sep, k) {
      if OccursAt(s[..i], sep, k) {
        OccursInSlice(s, sep, 0, i, k);
      }
    }
  }

  /** Python's s.split(sep) for a non-empty separator: the pieces between the
      occurrences of `sep` found from left to right. Joining them back with
      `sep` gives `s`, and no piece contains `sep`. */
  function Split(s: string, sep: string): (parts: seq<string>)
    requires sep != ""
    ensures |parts| >= 1
    ensures Join(parts, sep) == s
    ensures forall k :: 0 <= k < |parts| ==> !Contains(parts[k], sep)
    ensures !Contains(s, sep) ==> parts == [s]
    ensures Contains(s, sep) ==> parts[0] == s[..IndexOf(s, sep).value]
    decreases |s|
  {
    match IndexOf(s, sep)
    case None => [s]
    case Some(i) =>
      var rest := Split(s[i + |sep|..], sep);
      SplitFirst(s, sep, i);
      assert ([s[..i]] + rest)[1..] == rest;
      [s[..i]] + rest
  }

  function Last<T>(xs: seq<T>): T
    requires |xs| > 0
  {
    xs[|xs| - 1]
  }

  /** Where `sep` occurs, the split takes the piece before its first
      occurrence, at the returned index `i`, and goes on after it. */
  lemma SplitAtFirst(s: string, sep: string) returns (i: nat)
    requires sep != "" && Contains(s, sep)
    ensures OccursAt(s, sep, i)
    ensures Split(s, sep) == [s[..i]] + Split(s[i + |sep|..], sep)
  {
    i := IndexOf(s, sep).value;
  }

  /** When `sep` occurs in `s`, the last piece of the split is the text that
      follows one of its occurrences, the one at the returned index `k`. */
  lemma {:induction false} LastPieceFollowsSep(s: string, sep: string) returns (k: nat)
    requires sep != "" && Contains(s, sep)
    ensures OccursAt(s, sep, k) && Last(Split(s, sep)) == s[k + |sep|..]
    decreases |s|
  {
    var i := SplitAtFirst(s, sep);
    var rest := s[i + |sep|..];
    if Contains(rest, sep) {
      var k' := LastPieceFollowsSep(rest, sep);
      k := ShiftOccurrence(s, sep, i, k');
      LastOfCons(s[..i], Split(rest, sep), rest[k' + |sep|..]);
    } else {
      k := i;
      LastOfCons(s[..i], Split(rest, sep), rest);
    }
  }

  /** The last piece of a split holds no separator. */
  lemma LastPieceHasNoSep(s: string, sep: string)
    requires sep != ""
    ensures !Contains(Last(Split(s, sep)), sep)
  {
    var parts := Split(s, sep);
    var n := |parts| - 1;
    assert !Contains(parts[n], sep);
  }

  lemma LastOfCons<T>(x: T, xs: seq<T>, y: T)
    requires |xs| > 0 && Last(xs) == y
    ensures Last([x] + xs) == y
  {
  }

  /** An occurrence at `k'` in the text after the occurrence at `i` is an
      occurrence at the returned index in `s`, with the same text after it. */
  lemma ShiftOccurrence(s: string, sep: string, i: nat, k': int) returns (k: nat)
    requires OccursAt(s, sep, i)
    requires OccursAt(s[i + |sep|..], sep, k')
    ensures OccursAt(s, sep, k)
    ensures s[i + |sep|..][k' + |sep|..] == s[k + |sep|..]
  {
    assert s[i + |sep|..|s|] == s[i + |sep|..];
    OccursInSlice(s, sep, i + |sep|, |s|, k');
    k := i + |sep| + k';
  }

  // ---------------------------------------------------------------------
  // Paths

  /** posixpath.join(a, b): an absolute `b` replaces `a`; otherwise `b` is
      appended to `a`, with a "/" between them unless `a` is empty or already
      ends with one. */
  function JoinPath(a: string, b: string): (r: string)
    ensures EndsWith(r, b)
    ensures StartsWith(b, "/") ==> r == b
    ensures !StartsWith(b, "/") ==> StartsWith(r, a)
    ensures !StartsWith(b, "/") && (a == "" || EndsWith(a, "/")) ==> |r| == |a| + |b|
    ensures !StartsWith(b, "/") && a != "" && !EndsWith(a, "/") ==> |r| == |a| + 1 + |b| && r[|a|] == '/'
  {
    if StartsWith(b, "/") then b
    else if a == "" || EndsWith(a, "/") then a + b
    else a + "/" + b
  }

  /** Whether a joined path names an archive depends on its last component
      only: ".tgz" holds no "/", so no suffix of that length can reach back
      across the separator into `a`. */
  lemma JoinPathArchiveSuffix(a: string, b: string)
    ensures EndsWith(JoinPath(a, b), ".tgz") <==> EndsWith(b, ".tgz")
  {
    var r := JoinPath(a, b);
    if StartsWith(b, "/") || a == "" {
      assert r == b;
    } else if |b| < 4 {
      SeparatorInSuffix(a, b);
    } else {
      assert r[|r| - 4..] == b[|b| - 4..];
    }
  }

  /** A relative component shorter than ".tgz", joined to a non-empty base,
      leaves the separator among the joined path's last four characters. */
  lemma SeparatorInSuffix(a: string, b: string)
    requires !StartsWith(b, "/") && a != "" && |b| < 4
    ensures !EndsWith(JoinPath(a, b), ".tgz")
  {
    var r := JoinPath(a, b);
    var p := |r| - |b| - 1;
    assert r[p] == '/';
    if |r| >= 4 {
      assert r[|r| - 4..][p - (|r| - 4)] == '/';
    }
  }
}
