/** The URL-collection loop at the start of main: lines are read until one
    that, trimmed and lower-cased, reads "done"; every earlier line is split
    on ',', each piece is trimmed and the empty ones are dropped. The lines
    input() would return are given as a sequence. */
module Collector {
  import opened Text

  const TERMINATOR := "done"

  /** line.strip().lower() == "done". */
  predicate IsTerminator(line: string) {
    ToLower(Strip(line)) == TERMINATOR
  }

  /** The terminator is "done" in any mix of upper and lower case, with any
      whitespace around it. */
  lemma TerminatorIgnoresCaseAndSpace(line: string)
    ensures IsTerminator(line) <==>
              var t := Strip(line);
              |t| == 4 && t[0] in "dD" && t[1] in "oO" && t[2] in "nN" && t[3] in "eE"
  {
    var t := Strip(line);
    if |t| == 4 {
      var l := ToLower(t);
      assert l == TERMINATOR <==> l[0] == 'd' && l[1] == 'o' && l[2] == 'n' && l[3] == 'e';
    }
  }

  /** The shape of every collected URL: non-empty, no whitespace at either
      end, and no comma. */
  predicate IsUrlEntry(u: string) {
    u != [] && !IsSpace(u[0]) && !IsSpace(u[|u| - 1]) && ',' !in u
  }

  /** [u.strip() for u in pieces if u.strip()]: never more URLs than
      pieces; CleanedEntries and CleanedSelectsNonBlank say which. */
  function Cleaned(pieces: seq<string>): (urls: seq<string>)
    ensures |urls| <= |pieces|
  {
    if pieces == [] then []
    else
      var t := Strip(pieces[0]);
      var rest := Cleaned(pieces[1..]);
      if t != [] then [t] + rest else rest
  }

  /** A stripped piece without ',' is a well-formed URL when it is not empty. */
  lemma StrippedEntry(piece: string)
    requires ',' !in piece && Strip(piece) != []
    ensures IsUrlEntry(Strip(piece))
  {
    var t := Strip(piece);
    StripBounds(piece);
    forall i | 0 <= i < |t|
      ensures t[i] != ','
    {
      assert t[i] == piece[LeadingSpace(piece) + i];
    }
  }

  /** Pieces without ',' yield only well-formed URLs: non-empty, stripped at
      both ends and free of ','. */
  lemma {:induction false} CleanedEntries(pieces: seq<string>)
    requires forall i :: 0 <= i < |pieces| ==> ',' !in pieces[i]
    ensures forall k :: 0 <= k < |Cleaned(pieces)| ==> IsUrlEntry(Cleaned(pieces)[k])
  {
    if pieces != [] {
      var t := Strip(pieces[0]);
      var rest := Cleaned(pieces[1..]);
      CleanedEntries(pieces[1..]);
      if t != [] {
        StrippedEntry(pieces[0]);
        assert Cleaned(pieces) == [t] + rest;
        EntriesConcat([t], rest);
      } else {
        assert Cleaned(pieces) == rest;
      }
    }
  }

  /** Every position moved one place on. */
  function Shifted(positions: seq<nat>): (r: seq<nat>)
    ensures |r| == |positions|
    ensures forall k :: 0 <= k < |r| ==> r[k] == positions[k] + 1
  {
    if positions == [] then [] else [positions[0] + 1] + Shifted(positions[1..])
  }

  /** `idx` lists, in strictly increasing order, positions of pieces that
      are not all whitespace. */
  predicate NonBlankIndices(pieces: seq<string>, idx: seq<nat>) {
    (forall k :: 0 <= k < |idx| ==> idx[k] < |pieces| && !AllSpace(pieces[idx[k]]))
    && (forall k, l :: 0 <= k < l < |idx| ==> idx[k] < idx[l])
  }

  /** Positions in `pieces[1..]` become positions in `pieces` once shifted. */
  lemma ShiftedNonBlank(pieces: seq<string>, rest: seq<nat>)
    requires pieces != [] && NonBlankIndices(pieces[1..], rest)
    ensures NonBlankIndices(pieces, Shifted(rest))
  {
    var shifted := Shifted(rest);
    assert forall k :: 0 <= k < |rest| ==> pieces[1..][rest[k]] == pieces[shifted[k]];
  }

  /** A non-blank first piece can be put in front of later positions. */
  lemma ZeroInFront(pieces: seq<string>, idx: seq<nat>)
    requires pieces != [] && !AllSpace(pieces[0]) && NonBlankIndices(pieces, idx)
    requires forall k :: 0 <= k < |idx| ==> idx[k] > 0
    ensures NonBlankIndices(pieces, [0] + idx)
  {
    var all := [0] + idx;
    assert forall k :: 1 <= k < |all| ==> all[k] == idx[k - 1];
  }

  /** The positions, in increasing order, of the pieces that are not all
      whitespace (NonBlankPositionsComplete: all of them). */
  function NonBlankPositions(pieces: seq<string>): (idx: seq<nat>)
    ensures forall k :: 0 <= k < |idx| ==> idx[k] < |pieces| && !AllSpace(pieces[idx[k]])
    ensures forall k, l :: 0 <= k < l < |idx| ==> idx[k] < idx[l]
  {
    if pieces == [] then []
    else
      var rest := NonBlankPositions(pieces[1..]);
      ShiftedNonBlank(pieces, rest);
      var shifted := Shifted(rest);
      if AllSpace(pieces[0]) then shifted
      else
        ZeroInFront(pieces, shifted);
        [0] + shifted
  }

  /** One step of NonBlankPositions: the positions after the first piece,
      moved one place on, with position 0 in front when that piece is not
      blank. */
  lemma NonBlankPositionsUnfold(pieces: seq<string>)
    requires pieces != []
    ensures var shifted := Shifted(NonBlankPositions(pieces[1..]));
            NonBlankPositions(pieces) == if AllSpace(pieces[0]) then shifted else [0] + shifted
  {
  }

  /** No piece that is not all whitespace is missing from NonBlankPositions. */
  lemma {:induction false} NonBlankPositionsComplete(pieces: seq<string>, j: nat)
    requires j < |pieces| && !AllSpace(pieces[j])
    ensures j in NonBlankPositions(pieces)
  {
    if j > 0 {
      assert pieces[1..][j - 1] == pieces[j];
      NonBlankPositionsComplete(pieces[1..], j - 1);
      var rest := NonBlankPositions(pieces[1..]);
      var k :| 0 <= k < |rest| && rest[k] == j - 1;
      var shifted := Shifted(rest);
      assert shifted[k] == j;
      assert j in shifted;
      NonBlankPositionsUnfold(pieces);
    }
  }

  /** The comprehension keeps the pieces that are not all whitespace,
      trimmed, in their order, and no others: its k-th URL is the k-th such
      piece, trimmed. */
  lemma {:induction false} CleanedSelectsNonBlank(pieces: seq<string>)
    ensures |Cleaned(pieces)| == |NonBlankPositions(pieces)|
    ensures forall k :: 0 <= k < |Cleaned(pieces)| ==>
              Cleaned(pieces)[k] == Strip(pieces[NonBlankPositions(pieces)[k]])
  {
    if pieces != [] {
      StripBounds(pieces[0]);
      CleanedSelectsNonBlank(pieces[1..]);
      var urls, idx := Cleaned(pieces[1..]), NonBlankPositions(pieces[1..]);
      var shifted := Shifted(idx);
      assert forall k :: 0 <= k < |urls| ==> urls[k] == Strip(pieces[shifted[k]]);
      var t := Strip(pieces[0]);
      if t != [] {
        assert Cleaned(pieces) == [t] + urls;
        assert NonBlankPositions(pieces) == [0] + shifted;
      } else {
        assert Cleaned(pieces) == urls;
        assert NonBlankPositions(pieces) == shifted;
      }
    }
  }

  /** The URLs one line contributes. */
  function LineUrls(line: string): seq<string> {
    Cleaned(Split(line, ','))
  }

  /** The URLs of a line are well-shaped and there are as many as there are
      non-blank comma-separated pieces. */
  lemma LineUrlsShape(line: string)
    ensures forall k :: 0 <= k < |LineUrls(line)| ==> IsUrlEntry(LineUrls(line)[k])
    ensures |LineUrls(line)| == |NonBlankPositions(Split(line, ','))|
  {
    CleanedEntries(Split(line, ','));
    CleanedSelectsNonBlank(Split(line, ','));
  }

  /** The URLs of several lines, line after line. */
  function Flatten(lines: seq<string>): seq<string> {
    if lines == [] then [] else LineUrls(lines[0]) + Flatten(lines[1..])
  }

  /** Lines keep their order: the URLs of `a + b` are those of `a`, then
      those of `b`. */
  lemma {:induction false} FlattenAppend(a: seq<string>, b: seq<string>)
    ensures Flatten(a + b) == Flatten(a) + Flatten(b)
  {
    if a == [] {
      assert a + b == b;
    } else {
      assert (a + b)[0] == a[0];
      assert (a + b)[1..] == a[1..] + b;
      FlattenAppend(a[1..], b);
      var u := LineUrls(a[0]);
      assert u + (Flatten(a[1..]) + Flatten(b)) == (u + Flatten(a[1..])) + Flatten(b);
    }
  }

  /** Number of non-blank comma-separated pieces over several lines. */
  function PieceCount(lines: seq<string>): nat {
    if lines == [] then 0 else |NonBlankPositions(Split(lines[0], ','))| + PieceCount(lines[1..])
  }

  /** Well-formed URLs stay well-formed when two lists are joined. */
  lemma EntriesConcat(u: seq<string>, v: seq<string>)
    requires forall k :: 0 <= k < |u| ==> IsUrlEntry(u[k])
    requires forall k :: 0 <= k < |v| ==> IsUrlEntry(v[k])
    ensures forall k :: 0 <= k < |u + v| ==> IsUrlEntry((u + v)[k])
  {
    assert forall k :: |u| <= k < |u + v| ==> (u + v)[k] == v[k - |u|];
  }

  lemma {:induction false} FlattenShape(lines: seq<string>)
    ensures |Flatten(lines)| == PieceCount(lines)
    ensures forall k :: 0 <= k < |Flatten(lines)| ==> IsUrlEntry(Flatten(lines)[k])
  {
    if lines != [] {
      var u, v := LineUrls(lines[0]), Flatten(lines[1..]);
      assert Flatten(lines) == u + v;
      LineUrlsShape(lines[0]);
      FlattenShape(lines[1..]);
      EntriesConcat(u, v);
    }
  }

  /** What the loop ends with: the URL list once "done" is read, or the end
      of input first (input() then raises EOFError, which nothing catches). */
  datatype Collection = Terminated(urls: seq<string>) | InputExhausted

  function Prepend(urls: seq<string>, c: Collection): Collection {
    match c
    case InputExhausted => InputExhausted
    case Terminated(rest) => Terminated(urls + rest)
  }

  /** Reference definition of the loop, one line at a time. */
  function Collect(lines: seq<string>): Collection {
    if lines == [] then InputExhausted
    else if IsTerminator(lines[0]) then Terminated([])
    else Prepend(LineUrls(lines[0]), Collect(lines[1..]))
  }

  /** One step of Collect on a non-empty input. */
  lemma CollectUnfold(lines: seq<string>)
    requires lines != []
    ensures Collect(lines) ==
              if IsTerminator(lines[0]) then Terminated([])
              else Prepend(LineUrls(lines[0]), Collect(lines[1..]))
  {
  }

  /** One line of input that is not the terminator adds its URLs in front of
      what the rest of the input collects. */
  lemma CollectStep(lines: seq<string>, i: nat)
    requires i < |lines| && !IsTerminator(lines[i])
    ensures Collect(lines[i..]) == Prepend(LineUrls(lines[i]), Collect(lines[i + 1..]))
  {
    assert lines[i..][0] == lines[i];
    assert lines[i..][1..] == lines[i + 1..];
  }

  /** Prepending twice is prepending the concatenation. */
  lemma PrependTwice(a: seq<string>, b: seq<string>, c: Collection)
    ensures Prepend(a, Prepend(b, c)) == Prepend(a + b, c)
  {
    if c.Terminated? {
      assert a + (b + c.urls) == (a + b) + c.urls;
    }
  }

  /** The while-True loop of main, extending `urls` line by line. */
  method CollectUrls(lines: seq<string>) returns (c: Collection)
    ensures c == Collect(lines)
  {
    var urls: seq<string> := [];
    var i := 0;
    while true
      invariant 0 <= i <= |lines|
      invariant Prepend(urls, Collect(lines[i..])) == Collect(lines)
      decreases |lines| - i
    {
      if i == |lines| {
        assert lines[i..] == [];
        return InputExhausted;
      }
      var line := lines[i];
      if IsTerminator(line) {
        assert lines[i..][0] == line;
        assert urls + [] == urls;
        return Terminated(urls);
      }
      CollectStep(lines, i);
      PrependTwice(urls, LineUrls(line), Collect(lines[i + 1..]));
      urls := urls + LineUrls(line);
      i := i + 1;
    }
  }

  /** Collection ends at the first terminator: the result is the URLs of the
      lines before it, in order, and that line adds nothing. */
  lemma {:induction false} CollectStopsAtFirstTerminator(lines: seq<string>, k: nat)
    requires k < |lines| && IsTerminator(lines[k])
    requires forall j :: 0 <= j < k ==> !IsTerminator(lines[j])
    ensures Collect(lines) == Terminated(Flatten(lines[..k]))
  {
    if k > 0 {
      CollectStopsAtFirstTerminator(lines[1..], k - 1);
      assert lines[..k][1..] == lines[1..][..k - 1];
    }
  }

  /** Lines after the terminator contribute nothing. */
  lemma {:induction false} CollectIgnoresLaterLines(lines: seq<string>, later: seq<string>)
    requires Collect(lines).Terminated?
    ensures Collect(lines + later) == Collect(lines)
  {
    assert lines != [];
    var line, rest := lines[0], lines[1..];
    assert lines == [line] + rest;
    assert lines + later == [line] + (rest + later);
    CollectCons(line, rest);
    CollectCons(line, rest + later);
    if !IsTerminator(line) {
      CollectIgnoresLaterLines(rest, later);
    }
  }

  /** Collect on one line followed by the rest. */
  lemma CollectCons(line: string, rest: seq<string>)
    ensures Collect([line] + rest) ==
              if IsTerminator(line) then Terminated([]) else Prepend(LineUrls(line), Collect(rest))
  {
    var lines := [line] + rest;
    assert lines[0] == line;
    assert lines[1..] == rest;
  }

  /** The loop runs out of input exactly when no line is a terminator. */
  lemma {:induction false} CollectExhaustedIff(lines: seq<string>)
    ensures Collect(lines) == InputExhausted <==> forall j :: 0 <= j < |lines| ==> !IsTerminator(lines[j])
  {
    if lines != [] {
      CollectUnfold(lines);
      CollectExhaustedIff(lines[1..]);
      assert forall j :: 1 <= j < |lines| ==> lines[1..][j - 1] == lines[j];
    }
  }

  /** Every collected URL is well-shaped, and there is one per non-blank
      comma-separated piece of the lines before the terminator. */
  lemma CollectedShape(lines: seq<string>, k: nat)
    requires k < |lines| && IsTerminator(lines[k])
    requires forall j :: 0 <= j < k ==> !IsTerminator(lines[j])
    ensures Collect(lines).Terminated?
    ensures |Collect(lines).urls| == PieceCount(lines[..k])
    ensures forall i :: 0 <= i < |Collect(lines).urls| ==> IsUrlEntry(Collect(lines).urls[i])
  {
    CollectStopsAtFirstTerminator(lines, k);
    FlattenShape(lines[..k]);
  }
}
