/** Reassembly of a container log that is fetched again and again in full: each
    snapshot is the whole log so far, and the reassembler emits every newly
    completed line exactly once, with carriage returns removed. */
module LogReassembly {
  import opened Strings
  import opened Streams

  /** The error raised when a snapshot is shorter than the consumed cursor. */
  const ShorterThanExpected := "Output shorter than expected"

  function StripCR(s: string): string {
    Remove(s, '\r')
  }

  /** A finished line holds neither a newline nor a carriage return. */
  predicate IsLine(l: string) {
    '\n' !in l && '\r' !in l
  }

  predicate AllLines(ls: seq<string>) {
    forall i :: 0 <= i < |ls| ==> IsLine(ls[i])
  }

  /** The text of `lines`, each one terminated by a newline. */
  function JoinLines(lines: seq<string>): string {
    if lines == [] then [] else JoinLines(lines[..|lines| - 1]) + lines[|lines| - 1] + "\n"
  }

  /** Every line of `lines` followed by every line of `more`. */
  function Flatten(batches: seq<seq<string>>): seq<string> {
    if batches == [] then [] else Flatten(batches[..|batches| - 1]) + batches[|batches| - 1]
  }

  // ---------------------------------------------------------------------------
  // Splitting one snapshot (SplitStreamByNewlines over Indexed characters)
  // ---------------------------------------------------------------------------

  /** The running state of one scan: finished lines, one past the index of the
      last newline seen (0 if none), and the line being accumulated. */
  datatype Scan = Scan(output: seq<string>, last: nat, current: string)

  /** One indexed character: a newline closes the current line, anything else extends it. */
  function ScanStep(st: Scan, item: (char, nat)): Scan {
    if item.0 == '\n' then Scan(st.output + [st.current], item.1 + 1, [])
    else Scan(st.output, st.last, st.current + [item.0])
  }

  /** The scan over a sequence of indexed characters, from an empty state. */
  function ScanAll(items: seq<(char, nat)>): Scan {
    if items == [] then Scan([], 0, [])
    else ScanStep(ScanAll(items[..|items| - 1]), items[|items| - 1])
  }

  /** `Where(item != '\r')` over indexed characters. */
  function WithoutCarriageReturns(items: seq<(char, nat)>): seq<(char, nat)> {
    if items == [] then []
    else
      var x := items[|items| - 1];
      WithoutCarriageReturns(items[..|items| - 1]) + (if x.0 == '\r' then [] else [x])
  }

  /** The result of splitting one snapshot. */
  datatype Split = Split(output: seq<string>, last: nat, remainder: string)

  /** What the scan of `s[from..k]` has built: the closed lines spell out the text up
      to one past the last newline, and the current line is the text after it. */
  ghost predicate ScanInv(s: string, from: nat, k: nat, st: Scan)
    requires from <= k <= |s|
  {
    && AllLines(st.output) && IsLine(st.current)
    && (st.last == 0 <==> st.output == [])
    && (st.last == 0 ==> '\n' !in s[from..k] && st.current == StripCR(s[from..k]))
    && (st.last != 0 ==>
          && from < st.last <= k && s[st.last - 1] == '\n' && '\n' !in s[st.last..k]
          && JoinLines(st.output) == StripCR(s[from..st.last])
          && st.current == StripCR(s[st.last..k]))
  }

  lemma {:induction false} StripCRAppend(a: string, b: string)
    ensures StripCR(a + b) == StripCR(a) + StripCR(b)
  {
    RemoveAppend(a, b, '\r');
  }

  lemma {:induction false} StripCRSingle(c: char)
    ensures StripCR([c]) == if c == '\r' then [] else [c]
  {
    var t: string := [c];
    assert t[1..] == [];
    assert Remove(t[1..], '\r') == [];
  }

  /** A carriage return leaves the scan untouched and adds nothing to the text. */
  lemma {:induction false} ScanInvCarriageReturn(s: string, from: nat, k: nat, st: Scan)
    requires from <= k < |s| && s[k] == '\r'
    requires ScanInv(s, from, k, st)
    ensures ScanInv(s, from, k + 1, st)
  {
    StripCRSingle(s[k]);
    assert s[from..k + 1] == s[from..k] + [s[k]];
    StripCRAppend(s[from..k], [s[k]]);
    if st.last != 0 {
      assert s[st.last..k + 1] == s[st.last..k] + [s[k]];
      StripCRAppend(s[st.last..k], [s[k]]);
    }
  }

  lemma {:induction false} JoinLinesSnoc(ls: seq<string>, l: string)
    ensures JoinLines(ls + [l]) == JoinLines(ls) + l + "\n"
  {
    assert (ls + [l])[..|ls|] == ls;
  }

  lemma {:induction false} AllLinesSnoc(ls: seq<string>, l: string)
    requires AllLines(ls) && IsLine(l)
    ensures AllLines(ls + [l])
  {
    forall i | 0 <= i < |ls| + 1 ensures IsLine((ls + [l])[i]) {
      if i < |ls| { assert (ls + [l])[i] == ls[i]; }
    }
  }

  /** The text of `s[from..k + 1]` once the newline at `k` is added to what came before. */
  lemma {:induction false} NewlineText(s: string, from: nat, k: nat, st: Scan)
    requires from <= k < |s| && s[k] == '\n'
    requires ScanInv(s, from, k, st)
    ensures JoinLines(st.output) + st.current + "\n" == StripCR(s[from..k + 1])
  {
    StripCRSingle(s[k]);
    assert s[from..k + 1] == s[from..k] + [s[k]];
    StripCRAppend(s[from..k], [s[k]]);
    if st.last != 0 {
      assert s[from..k] == s[from..st.last] + s[st.last..k];
      StripCRAppend(s[from..st.last], s[st.last..k]);
    }
  }

  /** A newline closes the current line and moves `last` just past itself. */
  lemma {:induction false} ScanInvNewline(s: string, from: nat, k: nat, st: Scan)
    requires from <= k < |s| && s[k] == '\n'
    requires ScanInv(s, from, k, st)
    ensures ScanInv(s, from, k + 1, ScanStep(st, (s[k], k)))
  {
    var out := st.output + [st.current];
    NewlineText(s, from, k, st);
    JoinLinesSnoc(st.output, st.current);
    AllLinesSnoc(st.output, st.current);
    assert s[k + 1..k + 1] == [];
    assert ScanStep(st, (s[k], k)) == Scan(out, k + 1, []);
  }

  /** Any other character extends the current line. */
  lemma {:induction false} ScanInvOther(s: string, from: nat, k: nat, st: Scan)
    requires from <= k < |s| && s[k] != '\n' && s[k] != '\r'
    requires ScanInv(s, from, k, st)
    ensures ScanInv(s, from, k + 1, ScanStep(st, (s[k], k)))
  {
    var next := Scan(st.output, st.last, st.current + [s[k]]);
    assert ScanStep(st, (s[k], k)) == next;
    var start := if st.last == 0 then from else st.last;
    SliceSnoc(s, start, k);
    LineExtended(s[start..k], s[k]);
    assert IsLine(next.current);
  }

  lemma SliceSnoc(s: string, i: nat, k: nat)
    requires i <= k < |s|
    ensures s[i..k + 1] == s[i..k] + [s[k]]
  {
  }

  /** A character that is no line break extends a text without newlines. */
  lemma LineExtended(t: string, c: char)
    requires '\n' !in t && c != '\n' && c != '\r'
    ensures '\n' !in t + [c] && StripCR(t + [c]) == StripCR(t) + [c]
  {
    StripCRSingle(c);
    StripCRAppend(t, [c]);
  }

  /** Extending the indexed range by one character either keeps the filtered items
      (a carriage return) or appends that one indexed character. */
  lemma {:induction false} ScanAllExtend(s: string, from: nat, k: nat)
    requires from <= k < |s|
    ensures var st := ScanAll(WithoutCarriageReturns(Indexed(s)[from..k]));
      ScanAll(WithoutCarriageReturns(Indexed(s)[from..k + 1]))
        == if s[k] == '\r' then st else ScanStep(st, (s[k], k))
  {
    var items := Indexed(s)[from..k + 1];
    var prev := Indexed(s)[from..k];
    assert items[..|items| - 1] == prev;
    assert items[|items| - 1] == (s[k], k);
    var w := WithoutCarriageReturns(prev);
    if s[k] == '\r' {
      assert WithoutCarriageReturns(items) == w + [];
      assert w + [] == w;
    } else {
      var w' := w + [(s[k], k)];
      assert WithoutCarriageReturns(items) == w';
      assert w'[..|w'| - 1] == w;
      assert ScanAll(w') == ScanStep(ScanAll(w), (s[k], k));
    }
  }

  /** Before any character the scan is empty, and so is the text it covers. */
  lemma ScanInvStart(s: string, from: nat)
    requires from <= |s|
    ensures ScanInv(s, from, from, ScanAll(WithoutCarriageReturns(Indexed(s)[from..from])))
  {
    assert Indexed(s)[from..from] == [];
    assert s[from..from] == [];
  }

  /** One more character of `s` keeps the scan invariant: a carriage return is skipped,
      anything else is one scan step. */
  lemma {:induction false} ScanInvariantStep(s: string, from: nat, j: nat)
    requires from <= j < |s|
    requires ScanInv(s, from, j, ScanAll(WithoutCarriageReturns(Indexed(s)[from..j])))
    ensures ScanInv(s, from, j + 1, ScanAll(WithoutCarriageReturns(Indexed(s)[from..j + 1])))
  {
    var st := ScanAll(WithoutCarriageReturns(Indexed(s)[from..j]));
    var next := if s[j] == '\r' then st else ScanStep(st, (s[j], j));
    ScanInvStep(s, from, j, st);
    ScanAllExtend(s, from, j);
    ScanInvSame(s, from, j + 1, next, ScanAll(WithoutCarriageReturns(Indexed(s)[from..j + 1])));
  }

  /** The same step for any scan state that keeps the invariant. */
  lemma ScanInvStep(s: string, from: nat, j: nat, st: Scan)
    requires from <= j < |s|
    ensures ScanInv(s, from, j, st) ==>
              ScanInv(s, from, j + 1, if s[j] == '\r' then st else ScanStep(st, (s[j], j)))
  {
    if ScanInv(s, from, j, st) {
      if s[j] == '\r' {
        ScanInvCarriageReturn(s, from, j, st);
      } else if s[j] == '\n' {
        ScanInvNewline(s, from, j, st);
      } else {
        ScanInvOther(s, from, j, st);
      }
    }
  }

  lemma ScanInvSame(s: string, from: nat, k: nat, st: Scan, st': Scan)
    requires from <= k <= |s| && st' == st
    ensures ScanInv(s, from, k, st) == ScanInv(s, from, k, st')
  {
  }

  lemma ScanInvShift(s: string, from: nat, j: nat, k: nat)
    requires from <= j && k == j + 1 <= |s|
    requires ScanInv(s, from, j + 1, ScanAll(WithoutCarriageReturns(Indexed(s)[from..j + 1])))
    ensures ScanInv(s, from, k, ScanAll(WithoutCarriageReturns(Indexed(s)[from..k])))
  {
  }

  /** The scan of the characters of `s` from index `from` up to `k` keeps `ScanInv`. */
  lemma {:induction false} ScanInvariant(s: string, from: nat, k: nat)
    requires from <= k <= |s|
    ensures ScanInv(s, from, k, ScanAll(WithoutCarriageReturns(Indexed(s)[from..k])))
    decreases k
  {
    if k == from {
      ScanInvStart(s, from);
    } else {
      ScanInvariant(s, from, k - 1);
      ScanInvariantStep(s, from, k - 1);
      ScanInvShift(s, from, k - 1, k);
    }
  }

  /** How a split of `s[from..]` looks: the closed lines spell out the text up to one
      past the last newline, `last` is that position (0 when there is no newline), and
      the remainder is the carriage-return-free text after it. */
  ghost predicate SplitsAt(s: string, from: nat, r: Split)
    requires from <= |s|
  {
    && AllLines(r.output) && IsLine(r.remainder)
    && (r.last == 0 <==> r.output == [])
    && (r.output == [] ==> '\n' !in s[from..] && r.remainder == StripCR(s[from..]))
    && (r.output != [] ==>
          && from < r.last <= |s| && s[r.last - 1] == '\n' && '\n' !in s[r.last..]
          && JoinLines(r.output) == StripCR(s[from..r.last])
          && r.remainder == StripCR(s[r.last..]))
  }

  /** The scan of the whole of `s[from..]` yields such a split. */
  lemma {:induction false} ScanSplits(s: string, from: nat)
    requires from <= |s|
    ensures var st := ScanAll(WithoutCarriageReturns(Indexed(s)[from..|s|]));
      SplitsAt(s, from, Split(st.output, st.last, st.current))
  {
    ScanInvariant(s, from, |s|);
    assert s[from..|s|] == s[from..];
    var st := ScanAll(WithoutCarriageReturns(Indexed(s)[from..|s|]));
    if st.last != 0 {
      assert s[st.last..|s|] == s[st.last..];
    }
  }

  /** `SplitStreamByNewlines(s, skip)`: the characters of `s` from original index
      `skip` on, carriage returns dropped, cut at each newline. `last` is one past the
      original index of the last newline (0 if there is none) and `remainder` is the
      text after it. */
  function SplitStreamByNewlines(s: string, skip: nat): (r: Split)
    ensures SplitsAt(s, if skip <= |s| then skip else |s|, r)
  {
    var from := if skip <= |s| then skip else |s|;
    ScanSplits(s, from);
    assert Skip(Indexed(s), skip) == Indexed(s)[from..|s|];
    var st := ScanAll(WithoutCarriageReturns(Skip(Indexed(s), skip)));
    Split(st.output, st.last, st.current)
  }

  // ---------------------------------------------------------------------------
  // Lines of a carriage-return-free text, as an independent reference
  // ---------------------------------------------------------------------------

  /** The newline-terminated lines of `t` and the unterminated text after them,
      computed from the front of the text. */
  function SplitOnNewline(t: string): (seq<string>, string)
    decreases |t|
  {
    if t == [] then ([], [])
    else
      var rest := SplitOnNewline(t[1..]);
      if t[0] == '\n' then ([[]] + rest.0, rest.1)
      else if rest.0 == [] then ([], [t[0]] + rest.1)
      else ([[t[0]] + rest.0[0]] + rest.0[1..], rest.1)
  }

  lemma {:induction false} JoinLinesAppend(a: seq<string>, b: seq<string>)
    ensures JoinLines(a + b) == JoinLines(a) + JoinLines(b)
    decreases |b|
  {
    if b == [] {
      assert a + b == a;
    } else {
      var b' := b[..|b| - 1];
      assert (a + b)[..|a + b| - 1] == a + b';
      JoinLinesAppend(a, b');
    }
  }

  lemma {:induction false} JoinLinesCons(l: string, ls: seq<string>)
    ensures JoinLines([l] + ls) == l + "\n" + JoinLines(ls)
  {
    JoinLinesAppend([l], ls);
    assert [l][..0] == [];
  }

  lemma {:induction false} AllLinesCons(l: string, ls: seq<string>)
    requires IsLine(l) && AllLines(ls)
    ensures AllLines([l] + ls)
  {
    forall i | 0 <= i < |[l] + ls| ensures IsLine(([l] + ls)[i]) {
      if i > 0 { assert ([l] + ls)[i] == ls[i - 1]; }
    }
  }

  /** A leading newline adds an empty first line. */
  lemma {:induction false} SplitOnNewlineLeadingNewline(t: string)
    requires t != [] && t[0] == '\n'
    requires JoinLines(SplitOnNewline(t[1..]).0) + SplitOnNewline(t[1..]).1 == t[1..]
    requires AllLines(SplitOnNewline(t[1..]).0)
    ensures JoinLines(SplitOnNewline(t).0) + SplitOnNewline(t).1 == t
    ensures AllLines(SplitOnNewline(t).0)
  {
    var ls := SplitOnNewline(t[1..]).0;
    assert t == [t[0]] + t[1..];
    JoinLinesCons([], ls);
    AllLinesCons([], ls);
  }

  /** Any other leading character joins the first line, or the tail if there is no line. */
  lemma {:induction false} SplitOnNewlineLeadingOther(t: string)
    requires t != [] && t[0] != '\n' && t[0] != '\r'
    requires JoinLines(SplitOnNewline(t[1..]).0) + SplitOnNewline(t[1..]).1 == t[1..]
    requires AllLines(SplitOnNewline(t[1..]).0) && IsLine(SplitOnNewline(t[1..]).1)
    ensures JoinLines(SplitOnNewline(t).0) + SplitOnNewline(t).1 == t
    ensures AllLines(SplitOnNewline(t).0) && IsLine(SplitOnNewline(t).1)
  {
    var c := t[0];
    var rest := SplitOnNewline(t[1..]);
    var ls := rest.0;
    var tail := rest.1;
    assert t == [c] + t[1..];
    if ls == [] {
      assert SplitOnNewline(t) == ([], [c] + tail);
      assert JoinLines(ls) == [];
    } else {
      assert SplitOnNewline(t) == ([[c] + ls[0]] + ls[1..], tail);
      FirstLineExtended(c, ls);
    }
  }

  /** A character that is no line break, put in front of the first of some lines. */
  lemma {:induction false} FirstLineExtended(c: char, ls: seq<string>)
    requires c != '\n' && c != '\r' && ls != [] && AllLines(ls)
    ensures JoinLines([[c] + ls[0]] + ls[1..]) == [c] + JoinLines(ls)
    ensures AllLines([[c] + ls[0]] + ls[1..])
  {
    var first := [c] + ls[0];
    assert ls == [ls[0]] + ls[1..];
    assert IsLine(ls[0]);
    JoinLinesCons(ls[0], ls[1..]);
    JoinLinesCons(first, ls[1..]);
    AllLinesCons(first, ls[1..]);
  }

  /** The reference split really is a decomposition of `t` into lines and a tail. */
  lemma {:induction false} SplitOnNewlineSpec(t: string)
    requires '\r' !in t
    ensures JoinLines(SplitOnNewline(t).0) + SplitOnNewline(t).1 == t
    ensures AllLines(SplitOnNewline(t).0) && IsLine(SplitOnNewline(t).1)
    decreases |t|
  {
    if t != [] {
      SplitOnNewlineSpec(t[1..]);
      if t[0] == '\n' {
        SplitOnNewlineLeadingNewline(t);
      } else {
        SplitOnNewlineLeadingOther(t);
      }
    }
  }

  lemma {:induction false} NewlineInJoinLines(ls: seq<string>)
    requires ls != []
    ensures |JoinLines(ls)| > 0 && JoinLines(ls)[|JoinLines(ls)| - 1] == '\n'
  {
  }

  /** The tail after the last newline cannot be longer in one decomposition than
      in another. */
  lemma {:induction false} TailNoLonger(a: seq<string>, x: string, b: seq<string>, y: string)
    requires '\n' !in x && '\n' !in y
    requires JoinLines(a) + x == JoinLines(b) + y
    ensures |y| <= |x|
  {
    var t := JoinLines(a) + x;
    if a != [] {
      var j := |JoinLines(a)|;
      NewlineInJoinLines(a);
      assert t[j - 1] == '\n';
      assert y == t[|t| - |y|..];
      assert forall i :: |t| - |y| <= i < |t| ==> t[i] == y[i - (|t| - |y|)];
      assert !(|t| - |y| <= j - 1);
    }
  }

  /** A text splits into newline-free lines and a newline-free tail in only one way. */
  lemma {:induction false} JoinLinesUnique(a: seq<string>, x: string, b: seq<string>, y: string)
    requires AllLines(a) && AllLines(b) && '\n' !in x && '\n' !in y
    requires JoinLines(a) + x == JoinLines(b) + y
    ensures a == b && x == y
    decreases |a|
  {
    var t := JoinLines(a) + x;
    TailNoLonger(a, x, b, y);
    TailNoLonger(b, y, a, x);
    {
      assert x == t[|t| - |x|..] == y;
      assert JoinLines(a) == JoinLines(b);
      if a == [] && b != [] {
        NewlineInJoinLines(b);
      } else if a != [] && b == [] {
        NewlineInJoinLines(a);
      } else if a != [] {
        var a', b' := a[..|a| - 1], b[..|b| - 1];
        var la, lb := a[|a| - 1], b[|b| - 1];
        var ja, jb := JoinLines(a') + la, JoinLines(b') + lb;
        assert ja + "\n" == jb + "\n";
        assert ja == (ja + "\n")[..|ja|];
        assert ja == jb;
        assert AllLines(a') && AllLines(b');
        assert IsLine(la) && IsLine(lb);
        JoinLinesUnique(a', la, b', lb);
        assert a == a' + [la];
        assert b == b' + [lb];
      }
    }
  }

  // ---------------------------------------------------------------------------
  // Reassembling a stream of snapshots (SplitRepeatedPrefixByNewline)
  // ---------------------------------------------------------------------------

  /** The consumed length of the log and the text after the last newline. */
  datatype Cursor = Cursor(last: nat, remainder: string)

  /** The emitted batches so far, the cursor, and whether the stream has failed. */
  datatype Reassembler = Reassembler(batches: seq<seq<string>>, cursor: Cursor, failed: bool)

  const Initial := Reassembler([], Cursor(0, []), false)

  /** One snapshot. A snapshot shorter than the cursor fails the stream; otherwise the
      newly closed lines are emitted as one non-empty batch if there are any, and the
      cursor moves forward exactly when such a batch is emitted. */
  function Feed(st: Reassembler, s: string): (r: Reassembler)
    ensures st.failed ==> r == st
    ensures !st.failed && st.cursor.last > |s| ==> r.failed && r.batches == st.batches
    ensures !st.failed && st.cursor.last <= |s| ==>
      && !r.failed
      && st.batches <= r.batches && |r.batches| <= |st.batches| + 1
      && st.cursor.last <= r.cursor.last <= |s|
      && (|r.batches| == |st.batches| + 1 <==> r.cursor.last > st.cursor.last)
      && (|r.batches| == |st.batches| + 1 ==> r.batches[|st.batches|] != [])
  {
    if st.failed then st
    else if st.cursor.last > |s| then st.(failed := true)
    else
      var t := SplitStreamByNewlines(s, st.cursor.last);
      if t.output != [] then Reassembler(st.batches + [t.output], Cursor(t.last, t.remainder), false)
      else Reassembler(st.batches, Cursor(st.cursor.last, t.remainder), false)
  }

  /** What one accepted snapshot contributes: the new batch spells out the text between
      the old and the new cursor, the new cursor sits just past a newline, and the
      remainder is the text after the new cursor, whether or not a batch was emitted. */
  lemma {:induction false} FeedText(st: Reassembler, s: string)
    requires !st.failed && st.cursor.last <= |s|
    ensures var r := Feed(st, s);
      && (r.cursor.last > st.cursor.last ==>
            && s[r.cursor.last - 1] == '\n'
            && AllLines(r.batches[|st.batches|])
            && JoinLines(r.batches[|st.batches|]) == StripCR(s[st.cursor.last..r.cursor.last]))
      && r.cursor.remainder == StripCR(s[r.cursor.last..]) && IsLine(r.cursor.remainder)
  {
  }

  /** The reassembler after a finite sequence of snapshots. */
  function FeedAll(snapshots: seq<string>): Reassembler {
    if snapshots == [] then Initial
    else Feed(FeedAll(snapshots[..|snapshots| - 1]), snapshots[|snapshots| - 1])
  }

  /** Completion of the snapshot stream: a non-empty remainder is emitted once more as a
      one-line batch; a failed stream ends in the shrinking-output error instead. */
  function Finish(st: Reassembler): Trace<seq<string>> {
    if st.failed then Trace(st.batches, Errored(ShorterThanExpected))
    else if st.cursor.remainder != [] then Trace(st.batches + [[st.cursor.remainder]], Completed)
    else Trace(st.batches, Completed)
  }

  /** The reassembled line stream: it always ends, and it can fail only when some
      snapshot does not begin with the one before it. */
  function SplitRepeatedPrefixByNewline(snapshots: seq<string>): (r: Trace<seq<string>>)
    ensures r.end == Completed || r.end == Errored(ShorterThanExpected)
    ensures GrowingLog(snapshots) ==> r.end == Completed
  {
    if GrowingLog(snapshots) then
      GrowingLogInvariant(snapshots);
      Finish(FeedAll(snapshots))
    else
      Finish(FeedAll(snapshots))
  }

  // ---------------------------------------------------------------------------
  // Properties of the reassembly
  // ---------------------------------------------------------------------------

  /** Every snapshot begins with the one before it: the log only grows. */
  predicate GrowingLog(snapshots: seq<string>) {
    forall i :: 0 < i < |snapshots| ==> snapshots[i - 1] <= snapshots[i]
  }

  /** The last snapshot of the stream, or the empty log before the first one. */
  function Latest(snapshots: seq<string>): string {
    if snapshots == [] then [] else snapshots[|snapshots| - 1]
  }

  /** The lines a reader of `t` expects: its newline-terminated lines, then the
      unterminated tail if it is not empty. */
  function ExpectedLines(t: string): seq<string> {
    var (ls, tail) := SplitOnNewline(t);
    if tail == [] then ls else ls + [tail]
  }

  /** After the snapshots so far, ending with `latest`: everything emitted spells out the
      log up to the cursor, and the remainder is the rest of it. */
  ghost predicate ReassemblyInv(st: Reassembler, latest: string) {
    && !st.failed
    && st.cursor.last <= |latest|
    && (st.cursor.last > 0 ==> latest[st.cursor.last - 1] == '\n')
    && AllLines(Flatten(st.batches))
    && JoinLines(Flatten(st.batches)) == StripCR(latest[..st.cursor.last])
    && st.cursor.remainder == StripCR(latest[st.cursor.last..])
    && IsLine(st.cursor.remainder)
  }

  lemma {:induction false} FlattenSnoc(batches: seq<seq<string>>, b: seq<string>)
    ensures Flatten(batches + [b]) == Flatten(batches) + b
  {
    assert (batches + [b])[..|batches|] == batches;
  }

  lemma {:induction false} AllLinesAppend(a: seq<string>, b: seq<string>)
    requires AllLines(a) && AllLines(b)
    ensures AllLines(a + b)
  {
    forall i | 0 <= i < |a + b| ensures IsLine((a + b)[i]) {
      if i < |a| { assert (a + b)[i] == a[i]; } else { assert (a + b)[i] == b[i - |a|]; }
    }
  }

  /** Appending a batch that spells out the text between two cursors extends what the
      batches spell out to the later cursor. */
  lemma {:induction false} EmittedExtends(batches: seq<seq<string>>, b: seq<string>, s: string, last: nat, next: nat)
    requires last <= next <= |s|
    requires AllLines(Flatten(batches)) && JoinLines(Flatten(batches)) == StripCR(s[..last])
    requires AllLines(b) && JoinLines(b) == StripCR(s[last..next])
    ensures AllLines(Flatten(batches + [b]))
    ensures JoinLines(Flatten(batches + [b])) == StripCR(s[..next])
  {
    FlattenSnoc(batches, b);
    JoinLinesAppend(Flatten(batches), b);
    AllLinesAppend(Flatten(batches), b);
    assert s[..next] == s[..last] + s[last..next];
    StripCRAppend(s[..last], s[last..next]);
  }

  /** The emitted text up to a cursor that sits just past a newline of an earlier
      snapshot is unchanged in any extension of that snapshot. */
  lemma {:induction false} PrefixKept(prev: string, s: string, last: nat)
    requires prev <= s && last <= |prev|
    ensures s[..last] == prev[..last]
    ensures last > 0 ==> s[last - 1] == prev[last - 1]
  {
  }

  /** A snapshot that extends the previous one keeps the invariant and never fails. */
  lemma {:induction false} FeedGrowing(st: Reassembler, prev: string, s: string)
    requires ReassemblyInv(st, prev) && prev <= s
    ensures ReassemblyInv(Feed(st, s), s)
  {
    var last := st.cursor.last;
    PrefixKept(prev, s, last);
    var r := Feed(st, s);
    FeedText(st, s);
    if r.cursor.last > last {
      var b := r.batches[|st.batches|];
      assert r.batches == st.batches + [b];
      EmittedExtends(st.batches, b, s, last, r.cursor.last);
    }
  }

  /** For a growing log the reassembler never fails, and what it has emitted together
      with its remainder is exactly the latest snapshot without carriage returns. */
  lemma {:induction false} GrowingLogInvariant(snapshots: seq<string>)
    requires GrowingLog(snapshots)
    ensures ReassemblyInv(FeedAll(snapshots), Latest(snapshots))
  {
    if snapshots != [] {
      var init := snapshots[..|snapshots| - 1];
      assert GrowingLog(init) by {
        forall i | 0 < i < |init| ensures init[i - 1] <= init[i] {
          assert init[i - 1] == snapshots[i - 1] && init[i] == snapshots[i];
        }
      }
      GrowingLogInvariant(init);
      var s := snapshots[|snapshots| - 1];
      if init != [] {
        assert Latest(init) == snapshots[|snapshots| - 2];
      } else {
        assert Latest(init) == [] <= s;
      }
      FeedGrowing(FeedAll(init), Latest(init), s);
    }
  }

  /** Every line of a growing log is emitted exactly once and in order: the lines of the
      completed stream are the newline-split of the latest snapshot, carriage returns
      removed, the unterminated tail included when it is not empty. */
  lemma {:induction false} GrowingLogLines(snapshots: seq<string>)
    requires GrowingLog(snapshots)
    ensures SplitRepeatedPrefixByNewline(snapshots).end == Completed
    ensures Flatten(SplitRepeatedPrefixByNewline(snapshots).items)
      == ExpectedLines(StripCR(Latest(snapshots)))
  {
    GrowingLogInvariant(snapshots);
    var st := FeedAll(snapshots);
    var latest := Latest(snapshots);
    assert latest == latest[..st.cursor.last] + latest[st.cursor.last..];
    StripCRAppend(latest[..st.cursor.last], latest[st.cursor.last..]);
    var t := StripCR(latest);
    SplitOnNewlineSpec(t);
    var (ls, tail) := SplitOnNewline(t);
    JoinLinesUnique(Flatten(st.batches), st.cursor.remainder, ls, tail);
    if st.cursor.remainder != [] {
      FlattenSnoc(st.batches, [st.cursor.remainder]);
    }
  }

  /** Once the stream has failed, later snapshots change nothing. */
  lemma {:induction false} FailureIsFinal(snapshots: seq<string>, i: nat)
    requires i <= |snapshots| && FeedAll(snapshots[..i]).failed
    ensures FeedAll(snapshots) == FeedAll(snapshots[..i])
    decreases |snapshots|
  {
    if i < |snapshots| {
      var init := snapshots[..|snapshots| - 1];
      assert init[..i] == snapshots[..i];
      FailureIsFinal(init, i);
    } else {
      assert snapshots[..i] == snapshots;
    }
  }

  /** A snapshot shorter than the consumed cursor is rejected, never truncated: the
      stream ends with the shrinking-output error and nothing more is emitted. */
  lemma {:induction false} ShrinkingSnapshotRejected(snapshots: seq<string>, i: nat)
    requires i < |snapshots|
    requires !FeedAll(snapshots[..i]).failed
    requires |snapshots[i]| < FeedAll(snapshots[..i]).cursor.last
    ensures SplitRepeatedPrefixByNewline(snapshots)
      == Trace(FeedAll(snapshots[..i]).batches, Errored(ShorterThanExpected))
  {
    assert snapshots[..i + 1][..i] == snapshots[..i];
    assert FeedAll(snapshots[..i + 1]).failed;
    FailureIsFinal(snapshots, i + 1);
  }

  /** Emitted batches are never withdrawn: later snapshots only add batches. */
  lemma {:induction false} BatchesOnlyGrow(snapshots: seq<string>, i: nat)
    requires i <= |snapshots|
    ensures FeedAll(snapshots[..i]).batches <= FeedAll(snapshots).batches
    decreases |snapshots|
  {
    if i < |snapshots| {
      var init := snapshots[..|snapshots| - 1];
      assert init[..i] == snapshots[..i];
      BatchesOnlyGrow(init, i);
    } else {
      assert snapshots[..i] == snapshots;
    }
  }

  lemma {:induction false} ExampleText()
    ensures StripCR("llo\nWorld\r\n") == "llo\nWorld\n"
  {
    assert "llo\nWorld\r\n" == "llo\nWorld" + "\r" + "\n";
    StripCRAppend("llo\nWorld" + "\r", "\n");
    StripCRAppend("llo\nWorld", "\r");
    RemoveAbsent("llo\nWorld", '\r');
    StripCRSingle('\r');
    StripCRSingle('\n');
  }

  lemma {:induction false} ExampleJoin()
    ensures JoinLines(["llo", "World"]) == "llo\nWorld\n"
  {
    JoinLinesSnoc(["llo"], "World");
    JoinLinesSnoc([], "llo");
    assert [] + ["llo"] == ["llo"];
    assert ["llo"] + ["World"] == ["llo", "World"];
  }

  lemma {:induction false} ExampleCursor(s: string)
    requires s == "Hello\nWorld\r\n!"
    ensures SplitStreamByNewlines(s, 2).output != []
    ensures SplitStreamByNewlines(s, 2).last == 13
    ensures JoinLines(SplitStreamByNewlines(s, 2).output) == "llo\nWorld\n"
  {
    var r := SplitStreamByNewlines(s, 2);
    assert s[2..][10] == '\n';
    assert r.output != [];
    assert s[12] == '\n' && s[13] == '!';
    assert forall i | r.last <= i < |s| :: s[i] == s[r.last..][i - r.last];
    assert r.last > 12;
    assert s[2..13] == "llo\nWorld\r\n";
    ExampleText();
  }

  lemma {:induction false} ExampleRemainder(s: string)
    requires s == "Hello\nWorld\r\n!"
    ensures SplitStreamByNewlines(s, 2).remainder == "!"
  {
    ExampleCursor(s);
    assert s[13..] == "!";
    StripCRSingle('!');
  }

  lemma {:induction false} ExampleOutput(s: string)
    requires s == "Hello\nWorld\r\n!"
    ensures SplitStreamByNewlines(s, 2).output == ["llo", "World"]
  {
    ExampleCursor(s);
    ExampleLines(SplitStreamByNewlines(s, 2).output);
  }

  lemma {:induction false} ExampleLines(out: seq<string>)
    requires AllLines(out) && JoinLines(out) == "llo\nWorld\n"
    ensures out == ["llo", "World"]
  {
    ExampleJoin();
    assert JoinLines(out) + [] == JoinLines(["llo", "World"]) + [];
    JoinLinesUnique(out, [], ["llo", "World"], []);
  }

  /** The unit-test example for one snapshot: from index 2 of "Hello\nWorld\r\n!" the
      closed lines are "llo" and "World", the cursor is one short of the length, and
      "!" remains. */
  lemma {:induction false} SplitStreamExample(s: string)
    requires s == "Hello\nWorld\r\n!"
    ensures SplitStreamByNewlines(s, 2) == Split(["llo", "World"], |s| - 1, "!")
  {
    ExampleCursor(s);
    ExampleRemainder(s);
    ExampleOutput(s);
  }

  lemma {:induction false} HelloWorldJoin(ls: seq<string>)
    requires ls == ["Hello", "World"]
    ensures AllLines(ls) && JoinLines(ls) + "!" == "Hello\nWorld\n!"
  {
    JoinLinesSnoc(["Hello"], "World");
    JoinLinesSnoc([], "Hello");
    AllLinesSnoc([], "Hello");
    AllLinesSnoc(["Hello"], "World");
    assert [] + ["Hello"] == ["Hello"];
    assert ["Hello"] + ["World"] == ls;
  }

  lemma {:induction false} HelloWorldLines(t: string)
    requires t == "Hello\nWorld\n!"
    ensures ExpectedLines(t) == ["Hello", "World", "!"]
  {
    SplitOnNewlineSpec(t);
    var (ls, tail) := SplitOnNewline(t);
    var hw := ["Hello", "World"];
    HelloWorldJoin(hw);
    JoinLinesUnique(ls, tail, hw, "!");
  }

  lemma {:induction false} StripCRLine(x: string, eol: string, rest: string)
    requires '\r' !in x
    requires eol == "\r\n" || eol == "\n"
    ensures StripCR(x + eol + rest) == x + "\n" + StripCR(rest)
  {
    StripCRAppend(x + eol, rest);
    StripCRAppend(x, eol);
    RemoveAbsent(x, '\r');
    if eol == "\r\n" {
      assert eol == ['\r'] + ['\n'];
      StripCRAppend(['\r'], ['\n']);
      StripCRSingle('\r');
    }
    StripCRSingle('\n');
  }

  lemma {:induction false} HelloWorldText(s: string, eol: string)
    requires eol == "\r\n" || eol == "\n"
    requires s == "Hello" + eol + "World\r\n!"
    ensures StripCR(s) == "Hello\nWorld\n!"
  {
    var rest := "World" + "\r\n" + "!";
    assert s == "Hello" + eol + rest;
    StripCRLine("Hello", eol, rest);
    StripCRLine("World", "\r\n", "!");
    StripCRSingle('!');
    assert "!" == ['!'];
  }

  lemma FinalSnapshotText(last: string)
    requires last == "Hello\r\nWorld\r\n!" || last == "Hello\nWorld\r\n!"
    ensures StripCR(last) == "Hello\nWorld\n!"
  {
    if last == "Hello\r\nWorld\r\n!" {
      assert last == "Hello" + "\r\n" + "World\r\n!";
      HelloWorldText(last, "\r\n");
    } else {
      assert last == "Hello" + "\n" + "World\r\n!";
      HelloWorldText(last, "\n");
    }
  }

  /** A growing log whose final snapshot is one of the unit tests' final texts. */
  lemma HelloWorldFromLast(snapshots: seq<string>)
    requires GrowingLog(snapshots) && |snapshots| > 0
    requires snapshots[|snapshots| - 1] == "Hello\r\nWorld\r\n!" || snapshots[|snapshots| - 1] == "Hello\nWorld\r\n!"
    ensures SplitRepeatedPrefixByNewline(snapshots).end == Completed
    ensures Flatten(SplitRepeatedPrefixByNewline(snapshots).items) == ["Hello", "World", "!"]
  {
    GrowingLogLines(snapshots);
    FinalSnapshotText(Latest(snapshots));
    HelloWorldLines(StripCR(Latest(snapshots)));
  }

  /** The unit-test examples for a growing log, with "\r\n" or mixed line ends:
      the snapshots "Hello", "Hello\r\nWorl", "Hello\r\nWorld\r\n",
      "Hello\r\nWorld\r\n!" yield exactly the lines "Hello", "World", "!". */
  lemma {:induction false} GrowingLogExample(snapshots: seq<string>)
    requires || snapshots == ["Hello", "Hello\r\nWorl", "Hello\r\nWorld\r\n", "Hello\r\nWorld\r\n!"]
             || snapshots == ["Hello", "Hello\nWorl", "Hello\nWorld\r\n", "Hello\nWorld\r\n!"]
    ensures SplitRepeatedPrefixByNewline(snapshots).end == Completed
    ensures Flatten(SplitRepeatedPrefixByNewline(snapshots).items) == ["Hello", "World", "!"]
  {
    assert GrowingLog(snapshots) by {
      assert snapshots[0] <= snapshots[1] <= snapshots[2] <= snapshots[3];
    }
    HelloWorldFromLast(snapshots);
  }
}
