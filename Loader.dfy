/** The program loader's effect on memory, as a pure function: the lines are
    applied in input order to zeroed memory, each value clamped, until the
    first line that fails. */
module Loader {
  import opened Arith
  import opened Wrappers
  import opened Parser

  /** The memory image and the failure, if any, of a load. */
  datatype LoadResult = LoadResult(mem: seq<int>, error: Option<LoadError>)

  /** Memory before the first line: all zero. */
  function Zeros(): (m: seq<int>)
    ensures |m| == MemSize && forall i :: 0 <= i < MemSize ==> m[i] == 0
  {
    seq(MemSize, i => 0)
  }

  /** What each line asks for, line by line. */
  function ParseAll(lines: seq<string>): (rs: seq<LineResult>)
    ensures |rs| == |lines| && forall i :: 0 <= i < |lines| ==> rs[i] == ParseLine(lines[i])
  {
    seq(|lines|, i requires 0 <= i < |lines| => ParseLine(lines[i]))
  }

  /** Applies parsed lines in order, clamping each value; stops at the first
      rejected line and reports its error. */
  function Apply(mem: seq<int>, rs: seq<LineResult>): (r: LoadResult)
    requires |mem| == MemSize
    ensures |r.mem| == MemSize
    decreases rs
  {
    if rs == [] then LoadResult(mem, None)
    else
      match rs[0]
      case Reject(e) => LoadResult(mem, Some(e))
      case Assign(a, v) => Apply(mem[a := BoundsCap(v)], rs[1..])
  }

  /** The outcome of loading `lines`: memory and the error, if any. */
  function Load(lines: seq<string>): (r: LoadResult)
    ensures |r.mem| == MemSize
  {
    Apply(Zeros(), ParseAll(lines))
  }

  /** The index of the first rejected line, or |rs| if none is. */
  function FirstFailure(rs: seq<LineResult>): (k: nat)
    ensures k <= |rs|
    ensures forall i :: 0 <= i < k ==> rs[i].Assign?
    ensures k < |rs| ==> rs[k].Reject?
  {
    if rs == [] || rs[0].Reject? then 0 else 1 + FirstFailure(rs[1..])
  }

  /** Fail-fast: the load reports the first failing line's error, and the
      memory it leaves is what the lines before that one wrote. */
  lemma {:induction false} ApplyStopsAtFirstFailure(mem: seq<int>, rs: seq<LineResult>)
    requires |mem| == MemSize
    ensures var k := FirstFailure(rs);
      && Apply(mem, rs).mem == Apply(mem, rs[..k]).mem
      && Apply(mem, rs).error == (if k == |rs| then None else Some(rs[k].error))
    decreases rs
  {
    if rs != [] {
      match rs[0]
      case Reject(e) =>
      case Assign(a, v) =>
        ApplyStopsAtFirstFailure(mem[a := BoundsCap(v)], rs[1..]);
        assert rs[..FirstFailure(rs)][1..] == rs[1..][..FirstFailure(rs[1..])];
    }
  }

  /** The value the last assignment to `x` gives it, if any line assigns it. */
  function LastAssigned(rs: seq<LineResult>, x: int): Option<int> {
    if rs == [] then None
    else
      var later := LastAssigned(rs[1..], x);
      if later.Some? then later
      else if rs[0].Assign? && rs[0].addr == x then Some(rs[0].value)
      else None
  }

  /** Last write wins: when no line fails, each word ends up holding the
      clamped value of the last line that names it, in input order, and a
      word no line names keeps its value. */
  lemma {:induction false} ApplyLastWriteWins(mem: seq<int>, rs: seq<LineResult>, x: int)
    requires |mem| == MemSize && InBounds(x)
    requires FirstFailure(rs) == |rs|
    ensures Apply(mem, rs).error == None
    ensures Apply(mem, rs).mem[x] ==
      match LastAssigned(rs, x)
      case Some(v) => BoundsCap(v)
      case None => mem[x]
    decreases rs
  {
    if rs != [] {
      var a, v := rs[0].addr, rs[0].value;
      ApplyLastWriteWins(mem[a := BoundsCap(v)], rs[1..], x);
    }
  }

  /** Loading keeps memory within the value range. */
  lemma {:induction false} ApplyBounded(mem: seq<int>, rs: seq<LineResult>)
    requires |mem| == MemSize
    requires forall i :: 0 <= i < MemSize ==> Bounded(mem[i])
    ensures forall i :: 0 <= i < MemSize ==> Bounded(Apply(mem, rs).mem[i])
    decreases rs
  {
    if rs != [] {
      match rs[0]
      case Reject(e) =>
      case Assign(a, v) =>
        ApplyBounded(mem[a := BoundsCap(v)], rs[1..]);
    }
  }

  /** What a load of `lines` leaves: the error of the first failing line
      (none if every line parses); each word zero unless a line before that
      one names it, the last such line deciding its clamped value; every
      word in range. */
  lemma LoadSummary(lines: seq<string>, x: int)
    requires InBounds(x)
    ensures var rs, r := ParseAll(lines), Load(lines);
      var k := FirstFailure(rs);
      && r.error == (if k == |lines| then None else Some(ParseLine(lines[k]).error))
      && r.mem[x] == (match LastAssigned(rs[..k], x) case Some(v) => BoundsCap(v) case None => 0)
      && Bounded(r.mem[x])
  {
    var rs := ParseAll(lines);
    var k := FirstFailure(rs);
    ApplyStopsAtFirstFailure(Zeros(), rs);
    ApplyLastWriteWins(Zeros(), rs[..k], x);
    ApplyBounded(Zeros(), rs);
  }
}
