/** The Python string and POSIX path built-ins the image fetcher relies on:
    str.strip, str.lower (for ASCII letters), str.startswith, str.split with
    an explicit separator, os.path.basename and os.path.join. */
module Text {

  /** The code points Python's str.isspace accepts, as inclusive ranges:
      the fixed set of characters str.strip() removes when called without
      arguments. */
  const WHITESPACE: seq<(int, int)> :=
    [(0x09, 0x0D), (0x1C, 0x20), (0x85, 0x85), (0xA0, 0xA0), (0x1680, 0x1680),
     (0x2000, 0x200A), (0x2028, 0x2029), (0x202F, 0x202F), (0x205F, 0x205F),
     (0x3000, 0x3000)]

  predicate InRanges(n: int, ranges: seq<(int, int)>) {
    ranges != [] && ((ranges[0].0 <= n <= ranges[0].1) || InRanges(n, ranges[1..]))
  }

  predicate IsSpace(c: char) {
    InRanges(c as int, WHITESPACE)
  }

  /** Every character of `s` is whitespace (true of the empty string). */
  predicate AllSpace(s: string) {
    s == [] || (IsSpace(s[0]) && AllSpace(s[1..]))
  }

  lemma {:induction false} AllSpaceAt(s: string)
    ensures AllSpace(s) <==> forall k :: 0 <= k < |s| ==> IsSpace(s[k])
  {
    if s != [] {
      AllSpaceAt(s[1..]);
      assert forall k :: 1 <= k < |s| ==> s[1..][k - 1] == s[k];
    }
  }

  /** Length of the run of whitespace at the start of `s`
      (LeadingSpaceRun: that run is all whitespace and maximal). */
  function LeadingSpace(s: string): (n: nat)
    ensures n <= |s|
  {
    if s == [] || !IsSpace(s[0]) then 0 else 1 + LeadingSpace(s[1..])
  }

  lemma {:induction false} LeadingSpaceRun(s: string)
    ensures forall k :: 0 <= k < LeadingSpace(s) ==> IsSpace(s[k])
    ensures LeadingSpace(s) == |s| || !IsSpace(s[LeadingSpace(s)])
  {
    if s != [] && IsSpace(s[0]) {
      LeadingSpaceRun(s[1..]);
      assert forall k :: 1 <= k < |s| ==> s[1..][k - 1] == s[k];
    }
  }

  /** Length of the run of whitespace at the end of `s`
      (TrailingSpaceRun: that run is all whitespace and maximal). */
  function TrailingSpace(s: string): (n: nat)
    ensures n <= |s|
  {
    if s == [] || !IsSpace(s[|s| - 1]) then 0 else 1 + TrailingSpace(s[..|s| - 1])
  }

  lemma {:induction false} TrailingSpaceRun(s: string)
    ensures forall k :: |s| - TrailingSpace(s) <= k < |s| ==> IsSpace(s[k])
    ensures TrailingSpace(s) == |s| || !IsSpace(s[|s| - 1 - TrailingSpace(s)])
  {
    if s != [] && IsSpace(s[|s| - 1]) {
      TrailingSpaceRun(s[..|s| - 1]);
      assert forall k :: 0 <= k < |s| - 1 ==> s[..|s| - 1][k] == s[k];
    }
  }

  /** str.strip(): `s` without its leading and trailing whitespace
      (StripBounds states what that means). */
  function Strip(s: string): string {
    var t := s[LeadingSpace(s)..];
    t[..|t| - TrailingSpace(t)]
  }

  /** The stripped text neither starts nor ends with whitespace. It is the
      stretch of `s` that starts right after the leading whitespace and is
      followed by whitespace only, and it is empty exactly when `s` is all
      whitespace. */
  lemma StripBounds(s: string)
    ensures Strip(s) != [] ==> !IsSpace(Strip(s)[0]) && !IsSpace(Strip(s)[|Strip(s)| - 1])
    ensures |Strip(s)| <= |s| - LeadingSpace(s)
    ensures forall k :: 0 <= k < |Strip(s)| ==> Strip(s)[k] == s[LeadingSpace(s) + k]
    ensures forall k :: LeadingSpace(s) + |Strip(s)| <= k < |s| ==> IsSpace(s[k])
    ensures Strip(s) == [] <==> AllSpace(s)
  {
    StripInside(s);
    StripEnds(s);
    StripFollowedBySpace(s);
    StripEmptyIff(s);
  }

  /** Where the stripped text sits in `s`, the trailing run of the rest. */
  lemma StripInside(s: string)
    ensures var lead := LeadingSpace(s);
            var t := s[lead..];
            Strip(s) == t[..|t| - TrailingSpace(t)]
            && |Strip(s)| <= |s| - lead
            && forall k :: 0 <= k < |Strip(s)| ==> Strip(s)[k] == s[lead + k]
  {
  }

  lemma StripEnds(s: string)
    ensures Strip(s) != [] ==> !IsSpace(Strip(s)[0]) && !IsSpace(Strip(s)[|Strip(s)| - 1])
  {
    var lead := LeadingSpace(s);
    var t := s[lead..];
    var trail := TrailingSpace(t);
    StripInside(s);
    LeadingSpaceRun(s);
    TrailingSpaceRun(t);
    var r := Strip(s);
    if r != [] {
      assert r[0] == s[lead];
      assert r[|r| - 1] == t[|t| - 1 - trail];
    }
  }

  lemma StripFollowedBySpace(s: string)
    ensures forall k :: LeadingSpace(s) + |Strip(s)| <= k < |s| ==> IsSpace(s[k])
  {
    var lead := LeadingSpace(s);
    var t := s[lead..];
    StripInside(s);
    TrailingSpaceRun(t);
    assert forall k :: lead <= k < |s| ==> s[k] == t[k - lead];
  }

  lemma StripEmptyIff(s: string)
    ensures Strip(s) == [] <==> AllSpace(s)
  {
    var lead := LeadingSpace(s);
    StripInside(s);
    StripFollowedBySpace(s);
    LeadingSpaceRun(s);
    AllSpaceAt(s);
    if AllSpace(s) {
      assert lead == |s|;
    }
  }

  /** str.lower() restricted to ASCII letters. */
  function LowerChar(c: char): char {
    if 'A' <= c <= 'Z' then (c as int + 32) as char else c
  }

  function ToLower(s: string): (r: string)
    ensures |r| == |s|
    ensures forall i :: 0 <= i < |s| ==> r[i] == LowerChar(s[i])
  {
    if s == [] then [] else [LowerChar(s[0])] + ToLower(s[1..])
  }

  /** str.startswith(prefix). */
  function StartsWith(s: string, prefix: string): (b: bool)
    ensures b <==> |prefix| <= |s| && s[..|prefix|] == prefix
  {
    if prefix == [] then true
    else if s == [] || s[0] != prefix[0] then false
    else
      var b := StartsWith(s[1..], prefix[1..]);
      assert b ==> s[..|prefix|] == [s[0]] + s[1..][..|prefix| - 1];
      assert |prefix| <= |s| && s[..|prefix|] == prefix ==> s[1..][..|prefix| - 1] == prefix[1..];
      b
  }

  /** str.join with a one-character separator: the inverse of Split. */
  function JoinWith(pieces: seq<string>, sep: char): string
    requires |pieces| >= 1
  {
    if |pieces| == 1 then pieces[0] else pieces[0] + [sep] + JoinWith(pieces[1..], sep)
  }

  /** Number of occurrences of `c` in `s`. */
  function Occurrences(s: string, c: char): nat {
    if s == [] then 0 else (if s[0] == c then 1 else 0) + Occurrences(s[1..], c)
  }

  /** str.split(sep) with an explicit separator: the pieces between the
      separators, empty ones included; there is always at least one, and no
      piece contains the separator. */
  function Split(s: string, sep: char): (pieces: seq<string>)
    ensures |pieces| >= 1
    ensures forall i :: 0 <= i < |pieces| ==> sep !in pieces[i]
  {
    if s == [] then [""]
    else
      var rest := Split(s[1..], sep);
      if s[0] == sep then [""] + rest
      else [[s[0]] + rest[0]] + rest[1..]
  }

  /** Joining the pieces with the separator gives `s` back, and there is one
      piece more than there are separators. */
  lemma {:induction false} SplitJoin(s: string, sep: char)
    ensures JoinWith(Split(s, sep), sep) == s
    ensures |Split(s, sep)| == Occurrences(s, sep) + 1
  {
    if s != [] {
      SplitJoin(s[1..], sep);
      var rest := Split(s[1..], sep);
      var pieces := Split(s, sep);
      if s[0] == sep {
        assert pieces[1..] == rest;
      } else {
        assert pieces[1..] == rest[1..];
        assert JoinWith(pieces, sep) == [s[0]] + JoinWith(rest, sep);
      }
    }
  }

  /** p.rfind('/') + 1: where the last '/'-separated segment of `p` starts.
      No '/' follows it, and the character just before it is a '/'. */
  function SegmentStart(p: string): (i: nat)
    ensures i <= |p|
    ensures forall k :: i <= k < |p| ==> p[k] != '/'
    ensures i > 0 ==> p[i - 1] == '/'
  {
    if p == [] then 0
    else if p[|p| - 1] == '/' then |p|
    else SegmentStart(p[..|p| - 1])
  }

  /** os.path.basename on POSIX: p[p.rfind('/') + 1:], the text after the
      last '/', or all of `p` when it has none. */
  function Basename(p: string): (name: string)
    ensures '/' !in name
  {
    p[SegmentStart(p)..]
  }

  /** os.path.join(folder, name) on POSIX, for one component. */
  function JoinPath(folder: string, name: string): (path: string)
    ensures name != [] && name[0] != '/' ==> |path| > |folder| && path[..|folder|] == folder
    ensures name != [] && name[0] == '/' ==> path == name
    ensures |path| >= |name| && path[|path| - |name|..] == name
    ensures name != [] && name[0] != '/' ==>
              path[..|path| - |name|] == folder + (if folder == [] || folder[|folder| - 1] == '/' then "" else "/")
  {
    if name != [] && name[0] == '/' then name
    else if folder == [] || folder[|folder| - 1] == '/' then folder + name
    else folder + "/" + name
  }

  /** Basename undoes JoinPath for a name without '/'. */
  lemma BasenameOfJoin(folder: string, name: string)
    requires name != [] && '/' !in name
    ensures Basename(JoinPath(folder, name)) == name
  {
    var path := JoinPath(folder, name);
    var pre := path[..|path| - |name|];
    assert path == pre + name;
    BasenameAfterSlash(pre, name);
  }

  /** After an empty prefix or one ending in '/', the last segment is
      whatever follows, provided it holds no '/'. */
  lemma BasenameAfterSlash(pre: string, name: string)
    requires '/' !in name
    requires pre == [] || pre[|pre| - 1] == '/'
    ensures Basename(pre + name) == name
  {
    var p := pre + name;
    assert forall k :: |pre| <= k < |p| ==> p[k] == name[k - |pre|];
    assert pre != [] ==> p[|pre| - 1] == '/';
    assert SegmentStart(p) == |pre|;
    assert p[|pre|..] == name;
  }
}
