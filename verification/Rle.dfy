/** Run-length coding with runs of at most 255: what `Image.encode` produces, and why no code is shorter. */
module Rle {
  import opened Hex

  datatype Run = Run(length: nat, color: nat) {
    predicate Valid() { 1 <= length <= 255 }
  }

  function Repeat(n: nat, c: nat): seq<nat> {
    seq(n, _ => c)
  }

  function Expand(runs: seq<Run>): seq<nat> {
    if runs == [] then [] else Repeat(runs[0].length, runs[0].color) + Expand(runs[1..])
  }

  ghost predicate AllValid(runs: seq<Run>) {
    forall i :: 0 <= i < |runs| ==> runs[i].Valid()
  }

  /** The runs still to be produced when `count` copies of `previous` are pending in front of `rest`. */
  function RunsFrom(count: nat, previous: nat, rest: seq<nat>): seq<Run>
    decreases rest
  {
    if rest == [] then [Run(count, previous)]
    else if rest[0] != previous || count == 255 then
      [Run(count, previous)] + RunsFrom(1, rest[0], rest[1..])
    else RunsFrom(count + 1, previous, rest[1..])
  }

  function Runs(data: seq<nat>): seq<Run> {
    if data == [] then [] else RunsFrom(1, data[0], data[1..])
  }

  function AllButLast(runs: seq<Run>): seq<Run> {
    if runs == [] then [] else runs[..|runs| - 1]
  }

  function HexRuns(runs: seq<Run>): string {
    if runs == [] then ""
    else ToPaddedHex(runs[0].length) + ToPaddedHex(runs[0].color) + HexRuns(runs[1..])
  }

  lemma {:induction false} HexRunsAppend(runs: seq<Run>, more: seq<Run>)
    ensures HexRuns(runs + more) == HexRuns(runs) + HexRuns(more)
    decreases runs
  {
    if runs == [] {
      assert runs + more == more;
    } else {
      assert (runs + more)[1..] == runs[1..] + more;
      HexRunsAppend(runs[1..], more);
    }
  }

  /** Before value `i`: the runs `done` are printed as `text`, `count` copies of `previous` are pending. */
  ghost predicate Pending(data: seq<nat>, i: nat, done: seq<Run>, text: string, count: nat, previous: nat) {
    && i <= |data|
    && 1 <= count <= 255
    && text == HexRuns(done)
    && Runs(data) == done + RunsFrom(count, previous, data[i..])
  }

  lemma PendingBreak(data: seq<nat>, i: nat, done: seq<Run>, text: string, count: nat, previous: nat)
    requires Pending(data, i, done, text, count, previous)
    requires i < |data| && (data[i] != previous || count == 255)
    ensures Pending(data, i + 1, done + [Run(count, previous)],
                    text + ToPaddedHex(count) + ToPaddedHex(previous), 1, data[i])
  {
    PrintRun(done, count, previous);
    var rest := data[i..];
    assert rest[0] == data[i] && rest[1..] == data[i + 1..];
    Reassociate(done, [Run(count, previous)], RunsFrom(1, rest[0], rest[1..]));
  }

  lemma Reassociate(a: seq<Run>, b: seq<Run>, c: seq<Run>)
    ensures a + (b + c) == a + b + c
  {
  }

  lemma PendingEnd(data: seq<nat>, done: seq<Run>, text: string, count: nat, previous: nat)
    requires Pending(data, |data|, done, text, count, previous)
    ensures text + ToPaddedHex(count) + ToPaddedHex(previous) == HexRuns(Runs(data))
    ensures done == AllButLast(Runs(data))
  {
    PrintRun(done, count, previous);
    assert data[|data|..] == [];
    assert Runs(data) == done + [Run(count, previous)];
  }

  lemma PrintRun(done: seq<Run>, count: nat, previous: nat)
    ensures HexRuns(done + [Run(count, previous)]) == HexRuns(done) + ToPaddedHex(count) + ToPaddedHex(previous)
  {
    hide ToPaddedHex;
    HexRunsAppend(done, [Run(count, previous)]);
    assert [Run(count, previous)][1..] == [];
    assert HexRuns([]) == "";
    assert HexRuns([Run(count, previous)]) == ToPaddedHex(count) + ToPaddedHex(previous) + "";
  }

  lemma {:induction false} RunsFromExpand(count: nat, previous: nat, rest: seq<nat>)
    requires 1 <= count <= 255
    ensures Expand(RunsFrom(count, previous, rest)) == Repeat(count, previous) + rest
    ensures AllValid(RunsFrom(count, previous, rest))
    ensures forall i :: 0 <= i < |RunsFrom(count, previous, rest)| ==>
              var c := RunsFrom(count, previous, rest)[i].color; c == previous || c in rest
    decreases rest
  {
    if rest == [] {
      assert Expand([Run(count, previous)][1..]) == [];
    } else if rest[0] != previous || count == 255 {
      RunsFromExpand(1, rest[0], rest[1..]);
      var tail := RunsFrom(1, rest[0], rest[1..]);
      assert ([Run(count, previous)] + tail)[1..] == tail;
      assert Repeat(1, rest[0]) + rest[1..] == rest;
    } else {
      RunsFromExpand(count + 1, previous, rest[1..]);
      assert Repeat(count + 1, previous) + rest[1..] == Repeat(count, previous) + rest;
    }
  }

  /** Decoding the runs gives back exactly the encoded indexes, and every run fits its length byte. */
  lemma RunsExpand(data: seq<nat>)
    ensures Expand(Runs(data)) == data
    ensures AllValid(Runs(data))
    ensures forall i :: 0 <= i < |Runs(data)| ==> Runs(data)[i].color in data
  {
    if data != [] {
      RunsFromExpand(1, data[0], data[1..]);
      assert Repeat(1, data[0]) + data[1..] == data;
    }
  }

  /** Runs are as long as they can be: neighbours of one colour occur only after a full run. */
  lemma {:induction false} RunsFromAreGreedy(count: nat, previous: nat, rest: seq<nat>)
    requires 1 <= count <= 255
    ensures var runs := RunsFrom(count, previous, rest);
      && runs != [] && runs[0].color == previous
      && forall i :: 0 <= i < |runs| - 1 ==> runs[i].color != runs[i + 1].color || runs[i].length == 255
    decreases rest
  {
    if rest != [] {
      RunsFromAreGreedy(if rest[0] != previous || count == 255 then 1 else count + 1, rest[0], rest[1..]);
    }
  }

  lemma RunsAreGreedy(data: seq<nat>)
    ensures var runs := Runs(data);
      forall i :: 0 <= i < |runs| - 1 ==> runs[i].color != runs[i + 1].color || runs[i].length == 255
  {
    if data != [] {
      RunsFromAreGreedy(1, data[0], data[1..]);
    }
  }

  /** Without its last run, the list of runs is complete only for no data at all. */
  lemma LastRunIsMissing(data: seq<nat>)
    ensures AllButLast(Runs(data)) == Runs(data) <==> data == []
  {
    if data != [] {
      RunsFromNotEmpty(1, data[0], data[1..]);
      assert |AllButLast(Runs(data))| == |Runs(data)| - 1;
    }
  }

  lemma {:induction false} RunsFromNotEmpty(count: nat, previous: nat, rest: seq<nat>)
    ensures RunsFrom(count, previous, rest) != []
    decreases rest
  {
    if rest != [] && rest[0] == previous && count != 255 {
      RunsFromNotEmpty(count + 1, previous, rest[1..]);
    }
  }

  // ----- optimality -----

  /** The same code with the first n values removed. */
  function Trim(runs: seq<Run>, n: nat): seq<Run>
    requires n <= |Expand(runs)|
    decreases runs
  {
    if n == 0 then runs
    else if n < runs[0].length then [Run(runs[0].length - n, runs[0].color)] + runs[1..]
    else Trim(runs[1..], n - runs[0].length)
  }

  lemma DropFromConcat(a: seq<nat>, b: seq<nat>, n: nat)
    requires n <= |a| + |b|
    ensures n <= |a| ==> (a + b)[n..] == a[n..] + b
    ensures n >= |a| ==> (a + b)[n..] == b[n - |a|..]
  {
  }

  lemma {:induction false} TrimDrops(runs: seq<Run>, n: nat)
    requires AllValid(runs) && n <= |Expand(runs)|
    ensures AllValid(Trim(runs, n))
    ensures |Trim(runs, n)| <= |runs|
    ensures Expand(Trim(runs, n)) == Expand(runs)[n..]
    decreases runs
  {
    if n != 0 {
      var len, color := runs[0].length, runs[0].color;
      DropFromConcat(Repeat(len, color), Expand(runs[1..]), n);
      if n < len {
        assert ([Run(len - n, color)] + runs[1..])[1..] == runs[1..];
        assert Repeat(len, color)[n..] == Repeat(len - n, color);
      } else {
        TrimDrops(runs[1..], n - len);
      }
    }
  }

  lemma {:induction false} RunsFromOptimal(count: nat, previous: nat, rest: seq<nat>, other: seq<Run>)
    requires 1 <= count <= 255
    requires AllValid(other) && Expand(other) == Repeat(count, previous) + rest
    ensures |RunsFrom(count, previous, rest)| <= |other|
    decreases rest
  {
    if rest == [] {
    } else if rest[0] != previous || count == 255 {
      var shorter := WithoutFirstRun(count, previous, rest, other);
      assert Repeat(1, rest[0]) + rest[1..] == rest;
      RunsFromOptimal(1, rest[0], rest[1..], shorter);
    } else {
      assert Repeat(count + 1, previous) + rest[1..] == Repeat(count, previous) + rest;
      RunsFromOptimal(count + 1, previous, rest[1..], other);
    }
  }

  /** Where the encoder must break, any code can be turned into one of the rest that is a run shorter. */
  lemma WithoutFirstRun(count: nat, previous: nat, rest: seq<nat>, other: seq<Run>) returns (shorter: seq<Run>)
    requires 1 <= count <= 255 && rest != [] && (rest[0] != previous || count == 255)
    requires AllValid(other) && Expand(other) == Repeat(count, previous) + rest
    ensures AllValid(shorter) && Expand(shorter) == rest && |shorter| < |other|
  {
    FirstRunIsShort(count, previous, rest, other);
    var n := other[0].length;
    assert Expand(other) == Repeat(n, other[0].color) + Expand(other[1..]);
    hide Expand;
    WithoutFirst(Repeat(n, other[0].color), Expand(other[1..]), Repeat(count, previous), rest);
    TrimDrops(other[1..], count - n);
    shorter := Trim(other[1..], count - n);
  }

  /** Two ways to split a list: what follows the shorter front, without what the longer one has in excess. */
  lemma WithoutFirst(a: seq<nat>, b: seq<nat>, c: seq<nat>, d: seq<nat>)
    requires a + b == c + d && |a| <= |c|
    ensures |c| - |a| <= |b| && b[|c| - |a|..] == d
  {
    DropFromConcat(a, b, |c|);
    DropFromConcat(c, d, |c|);
  }

  /** Where the encoder must break, any code's first run stops there at the latest. */
  lemma FirstRunIsShort(count: nat, previous: nat, rest: seq<nat>, other: seq<Run>)
    requires 1 <= count <= 255 && rest != [] && (rest[0] != previous || count == 255)
    requires AllValid(other) && Expand(other) == Repeat(count, previous) + rest
    ensures other != [] && other[0].length <= count
  {
    var all := Expand(other);
    assert all[count] == rest[0] && all[0] == previous;
    assert other != [];
    var n := other[0].length;
    assert all == Repeat(n, other[0].color) + Expand(other[1..]);
  }

  /** No list of runs of length 1 to 255 that expands to the same indexes is shorter. */
  lemma RunsAreOptimal(data: seq<nat>, other: seq<Run>)
    requires AllValid(other) && Expand(other) == data
    ensures |Runs(data)| <= |other|
  {
    if data != [] {
      assert Repeat(1, data[0]) + data[1..] == data;
      RunsFromOptimal(1, data[0], data[1..], other);
    }
  }
}
