/** Edge coverage: the AFL hit-count map and the new-edge reports
    (src/tracer/mod.rs, src/log/mod.rs). */
module Coverage {
  import opened Base
  import opened Bits

  /** The map cell of an edge: target address against the previous location. */
  function EdgeIndex(pc: Word, prev: Word, n: nat): (i: nat)
    requires n > 0
    ensures i < n
  {
    Xor(pc, prev) % n
  }

  function NextLocation(pc: Word, n: nat): (p: nat)
    requires n > 0
    ensures p < n
  {
    pc / 2 % n
  }

  /** On a map of 2^k cells, bit by bit: a cell's bit is set where the target address and the previous location differ,
      and the next location is the target address without its lowest bit. */
  lemma EdgeBits(pc: Word, prev: Word, k: nat, j: nat)
    requires j < k
    ensures Bit(EdgeIndex(pc, prev, Pow2(k)), j) <==> Bit(pc, j) != Bit(prev, j)
    ensures Bit(NextLocation(pc, Pow2(k)), j) <==> Bit(pc, j + 1)
  {
    hide Xor, Bit, Pow2;
    ModBit(Xor(pc, prev), k, j);
    XorBit(pc, prev, j);
    ModBit(pc / 2, k, j);
    HalfBit(pc, j);
  }

  /** Edges into one target from different locations never share a cell of such a map. */
  lemma EdgesDistinct(pc: Word, prev: Word, other: Word, k: nat)
    requires prev < Pow2(k) && other < Pow2(k) && prev != other
    ensures EdgeIndex(pc, prev, Pow2(k)) != EdgeIndex(pc, other, Pow2(k))
  {
    hide Xor, Pow2;
    var low := pc % Pow2(k);
    XorMod(pc, prev, k);
    XorMod(pc, other, k);
    SmallMod(prev, Pow2(k));
    SmallMod(other, Pow2(k));
    XorCancel(low, prev);
    XorCancel(low, other);
  }

  // --------------------------------------------------- what a trace means

  /** An edge traced, with new-edge reporting on or off, or the start of an iteration. */
  datatype Event = Edge(pc: Word, reporting: bool) | NewIteration

  /** The previous location after a trace. */
  function Location(trace: seq<Event>, n: nat): (p: Word)
    requires 0 < n <= 0x1_0000_0000_0000_0000
    ensures p < n
  {
    if trace == [] then 0
    else match trace[|trace| - 1] case Edge(pc, _) => pc / 2 % n case NewIteration => 0
  }

  predicate Hits(trace: seq<Event>, k: nat, cell: nat, n: nat)
    requires k < |trace| && 0 < n <= 0x1_0000_0000_0000_0000
  {
    trace[k].Edge? && Xor(trace[k].pc, Location(trace[..k], n)) % n == cell
  }

  /** How many steps of a trace fall on a cell. */
  function HitCount(trace: seq<Event>, cell: nat, n: nat): nat
    requires 0 < n <= 0x1_0000_0000_0000_0000
  {
    if trace == [] then 0
    else HitCount(trace[..|trace| - 1], cell, n) + if Hits(trace, |trace| - 1, cell, n) then 1 else 0
  }

  function HitSet(trace: seq<Event>, cell: nat, n: nat): set<nat>
    requires 0 < n <= 0x1_0000_0000_0000_0000
  {
    set k: nat | k < |trace| && Hits(trace, k, cell, n)
  }

  /** The count is the size of the set of steps that hit the cell. */
  lemma {:induction false} HitCountIsCardinality(trace: seq<Event>, cell: nat, n: nat)
    requires 0 < n <= 0x1_0000_0000_0000_0000
    ensures HitCount(trace, cell, n) == |HitSet(trace, cell, n)|
  {
    hide Xor;
    if trace != [] {
      var m := |trace| - 1;
      HitCountIsCardinality(trace[..m], cell, n);
      HitSetStep(trace, cell, n);
      hide HitSet, Hits;
    }
  }

  lemma HitSetStep(trace: seq<Event>, cell: nat, n: nat)
    requires 0 < n <= 0x1_0000_0000_0000_0000 && trace != []
    ensures var m := |trace| - 1;
            && HitSet(trace, cell, n) == HitSet(trace[..m], cell, n) + (if Hits(trace, m, cell, n) then {m} else {})
            && m !in HitSet(trace[..m], cell, n)
  {
    hide Xor;
    var m := |trace| - 1;
    forall k: nat | k < m
      ensures Hits(trace[..m], k, cell, n) == Hits(trace, k, cell, n)
    {
      assert trace[..m][..k] == trace[..k];
    }
    hide Hits;
  }

  /** The cell bumped when `pc` was first traced with reporting on. */
  function FirstCell(trace: seq<Event>, pc: Word, n: nat): Option<nat>
    requires 0 < n <= 0x1_0000_0000_0000_0000
  {
    if trace == [] then None
    else
      var m := |trace| - 1;
      var before := FirstCell(trace[..m], pc, n);
      if before.Some? then before
      else if trace[m] == Edge(pc, true) then Some(EdgeIndex(pc, Location(trace[..m], n), n))
      else None
  }

  // -------------------------------------------------------------- reports

  datatype LogEdge = LogEdge(pc: Word, aflIdx: nat)

  predicate StrictlySorted(es: seq<LogEdge>) {
    forall i, j :: 0 <= i < j < |es| ==> es[i].pc < es[j].pc
  }

  function Items(m: map<Word, nat>): set<LogEdge> {
    set pc | pc in m :: LogEdge(pc, m[pc])
  }

  function Elements(es: seq<LogEdge>): set<LogEdge> {
    set e | e in es
  }

  ghost predicate Reported(reports: seq<seq<LogEdge>>, pc: Word) {
    exists i, j :: 0 <= i < |reports| && 0 <= j < |reports[i]| && reports[i][j].pc == pc
  }

  /** Every edge seen is in exactly one report or still pending, under the cell first bumped. */
  ghost predicate Conserved(trace: seq<Event>, seen: set<Word>, pending: map<Word, nat>, reports: seq<seq<LogEdge>>, n: nat)
    requires 0 < n <= 0x1_0000_0000_0000_0000
  {
    && (forall pc: Word :: pc in seen <==> FirstCell(trace, pc, n).Some?)
    && (forall pc: Word :: pc in seen <==> pc in pending || Reported(reports, pc))
    && (forall pc: Word :: pc in pending ==> !Reported(reports, pc) && Some(pending[pc]) == FirstCell(trace, pc, n))
    && (forall i :: 0 <= i < |reports| ==> StrictlySorted(reports[i]))
    && (forall i, j :: 0 <= i < |reports| && 0 <= j < |reports[i]| ==>
          Some(reports[i][j].aflIdx) == FirstCell(trace, reports[i][j].pc, n))
    && (forall i, i', j, j' :: 0 <= i < i' < |reports| && 0 <= j < |reports[i]| && 0 <= j' < |reports[i']| ==>
          reports[i][j].pc != reports[i'][j'].pc)
  }

  lemma FirstCellStep(trace: seq<Event>, e: Event, pc: Word, n: nat)
    requires 0 < n <= 0x1_0000_0000_0000_0000
    ensures FirstCell(trace + [e], pc, n) ==
            if FirstCell(trace, pc, n).Some? then FirstCell(trace, pc, n)
            else if e == Edge(pc, true) then Some(EdgeIndex(pc, Location(trace, n), n)) else None
  {
    assert (trace + [e])[..|trace|] == trace;
  }

  /** Tracing one more event keeps the reports accurate. */
  lemma TraceConserves(trace: seq<Event>, e: Event, seen: set<Word>, pending: map<Word, nat>, reports: seq<seq<LogEdge>>, n: nat)
    requires 0 < n <= 0x1_0000_0000_0000_0000 && Conserved(trace, seen, pending, reports, n)
    ensures var first := e.Edge? && e.reporting && e.pc !in seen;
            Conserved(trace + [e],
                      if first then seen + {e.pc} else seen,
                      if first then pending[e.pc := EdgeIndex(e.pc, Location(trace, n), n)] else pending,
                      reports, n)
  {
    forall pc: Word {
      FirstCellStep(trace, e, pc, n);
    }
    hide FirstCell;
  }

  /** A report of exactly the pending edges, in order, empties the pending map and loses nothing. */
  lemma ReportConserves(trace: seq<Event>, seen: set<Word>, pending: map<Word, nat>, reports: seq<seq<LogEdge>>,
                        es: seq<LogEdge>, n: nat)
    requires 0 < n <= 0x1_0000_0000_0000_0000 && Conserved(trace, seen, pending, reports, n)
    requires StrictlySorted(es) && Elements(es) == Items(pending)
    ensures Conserved(trace, seen, map[], reports + [es], n)
  {
    hide FirstCell;
    var rs: seq<seq<LogEdge>> := reports + [es];
    forall pc: Word
      ensures Reported(rs, pc) <==> Reported(reports, pc) || pc in pending
    {
      ReportedAppend(reports, es, pending, pc);
    }
    forall j | 0 <= j < |es|
      ensures es[j].pc in pending && es[j].aflIdx == pending[es[j].pc]
    {
      assert es[j] in Elements(es);
    }
    forall i, j | 0 <= i < |reports| && 0 <= j < |reports[i]|
      ensures Reported(reports, reports[i][j].pc)
    {
    }
  }

  lemma ReportedAppend(reports: seq<seq<LogEdge>>, es: seq<LogEdge>, pending: map<Word, nat>, pc: Word)
    requires Elements(es) == Items(pending)
    ensures Reported(reports + [es], pc) <==> Reported(reports, pc) || pc in pending
  {
    var rs: seq<seq<LogEdge>> := reports + [es];
    if Reported(reports, pc) {
      var i, j :| 0 <= i < |reports| && 0 <= j < |reports[i]| && reports[i][j].pc == pc;
      assert rs[i][j].pc == pc;
    }
    if pc in pending {
      assert LogEdge(pc, pending[pc]) in Items(pending);
      assert LogEdge(pc, pending[pc]) in es;
      var j :| 0 <= j < |es| && es[j] == LogEdge(pc, pending[pc]);
      assert rs[|reports|][j].pc == pc;
    }
    if Reported(rs, pc) {
      var i, j :| 0 <= i < |rs| && 0 <= j < |rs[i]| && rs[i][j].pc == pc;
      if i < |reports| {
        assert reports[i][j].pc == pc;
      } else {
        assert es[j] in Elements(es);
      }
    }
  }

  /** Sorted reports do not depend on hash-map order: the contents determine the sequence. */
  lemma {:induction false} SortedReportUnique(a: seq<LogEdge>, b: seq<LogEdge>)
    requires StrictlySorted(a) && StrictlySorted(b) && Elements(a) == Elements(b)
    ensures a == b
  {
    assert a != [] ==> a[0] in Elements(a);
    assert b != [] ==> b[0] in Elements(b);
    if a != [] {
      var x, y := a[|a| - 1], b[|b| - 1];
      assert x in Elements(a) && y in Elements(b);
      assert x in b && y in a;
      assert x == y;
      LastRemoved(a);
      LastRemoved(b);
      SortedReportUnique(a[..|a| - 1], b[..|b| - 1]);
    }
  }

  lemma LastRemoved(a: seq<LogEdge>)
    requires a != [] && StrictlySorted(a)
    ensures Elements(a[..|a| - 1]) == Elements(a) - {a[|a| - 1]}
  {
    var front, x := a[..|a| - 1], a[|a| - 1];
    forall e
      ensures e in front <==> e in a && e != x
    {
      if e in a && e != x {
        var i :| 0 <= i < |a| && a[i] == e;
        assert front[i] == e;
      }
    }
  }

  // ----------------------------------------------------------- in place

  /** One more hit, modulo 256. */
  function Bump(b: byte): byte {
    if b == 255 then 0 else b + 1
  }

  /** The reports logged while draining a batch of messages. */
  ghost predicate Appended(before: seq<seq<LogEdge>>, pending: map<Word, nat>, interesting: bool, after: seq<seq<LogEdge>>) {
    if interesting && pending != map[] then
      |after| == |before| + 1 && after[..|before|] == before && Elements(after[|before|]) == Items(pending)
    else after == before
  }

  datatype FuzzerMessage = Text | Interesting | Crash | TimedOut

  /** The tracer's fields: the shared coverage map, the previous location, the edges seen. */
  class Tracer {
    const coverage: array<byte>
    var prevLoc: Word
    var edgesSeen: set<Word>
    var edgesSinceLast: map<Word, nat>
    var solutionEdges: seq<seq<LogEdge>> // edge lists logged with solutions and timeouts
    ghost var trace: seq<Event>
    ghost var reports: seq<seq<LogEdge>>

    ghost predicate Valid()
      reads this, coverage
    {
      && 0 < coverage.Length <= 0x1_0000_0000_0000_0000
      && prevLoc == Location(trace, coverage.Length)
      && (forall cell :: 0 <= cell < coverage.Length ==> coverage[cell] == HitCount(trace, cell, coverage.Length) % 256)
      && Conserved(trace, edgesSeen, edgesSinceLast, reports, coverage.Length)
    }

    constructor (size: nat)
      requires 0 < size <= 0x1_0000_0000_0000_0000
      ensures Valid() && fresh(coverage) && coverage.Length == size
      ensures trace == [] && reports == []
    {
      coverage := new byte[size](_ => 0);
      prevLoc, edgesSeen, edgesSinceLast, solutionEdges := 0, {}, map[], [];
      trace, reports := [], [];
    }

    /** The hit counter wraps at 256; `prevLoc` moves to half the target address. */
    method LogPc(pc: Word)
      requires 0 < coverage.Length <= 0x1_0000_0000_0000_0000
      modifies `prevLoc, coverage
      ensures forall i :: 0 <= i < coverage.Length ==>
                coverage[i] == if i == Xor(pc, old(prevLoc)) % coverage.Length
                               then Bump(old(coverage[i])) else old(coverage[i])
      ensures prevLoc == pc / 2 % coverage.Length
    {
      hide Xor;
      var idx := EdgeIndex(pc, prevLoc, coverage.Length);
      coverage[idx] := Bump(coverage[idx]);
      prevLoc := NextLocation(pc, coverage.Length) as Word;
    }

    /** After an instruction that ends an edge at `pc`. */
    method OnInstructionAfter(pc: Word, reporting: bool)
      requires Valid()
      modifies this, coverage
      ensures Valid() && trace == old(trace) + [Edge(pc, reporting)] && reports == old(reports)
      ensures solutionEdges == old(solutionEdges)
    {
      ghost var before, n := trace, coverage.Length;
      ghost var e := Edge(pc, reporting);
      TraceConserves(before, e, edgesSeen, edgesSinceLast, reports, n);
      forall cell: nat | cell < n {
        HitCountStep(before, e, cell, n);
      }
      hide HitCount, Conserved, Location, Xor, Bump;
      if reporting && pc !in edgesSeen {
        edgesSeen := edgesSeen + {pc};
        edgesSinceLast := edgesSinceLast[pc := EdgeIndex(pc, prevLoc, coverage.Length)];
      }
      LogPc(pc);
      trace := trace + [e];
      LocationStep(before, e, n);
    }

    /** A new iteration: only the previous location is reset. */
    method StartIteration()
      requires Valid()
      modifies this
      ensures Valid() && trace == old(trace) + [NewIteration] && reports == old(reports) && prevLoc == 0
    {
      TraceConserves(trace, NewIteration, edgesSeen, edgesSinceLast, reports, coverage.Length);
      forall cell: nat | cell < coverage.Length {
        HitCountStep(trace, NewIteration, cell, coverage.Length);
      }
      hide HitCount, Conserved;
      prevLoc := 0;
      trace := trace + [NewIteration];
    }

    /** One message: an interesting input reports and clears the pending edges, a solution
        or timeout reports them without clearing. */
    method LogMessage(m: FuzzerMessage)
      requires Valid()
      modifies this
      ensures Valid() && trace == old(trace) && edgesSeen == old(edgesSeen) && prevLoc == old(prevLoc)
      ensures Appended(old(reports), old(edgesSinceLast), m.Interesting?, reports)
      ensures edgesSinceLast == if m.Interesting? then map[] else old(edgesSinceLast)
    {
      hide HitCount, Location;
      if !m.Text? && edgesSinceLast != map[] {
        var edges := SortedEdges(edgesSinceLast);
        if m.Interesting? {
          ReportConserves(trace, edgesSeen, edgesSinceLast, reports, edges, coverage.Length);
          hide Conserved, Items, Elements;
          reports := reports + [edges];
          edgesSinceLast := map[];
        } else {
          solutionEdges := solutionEdges + [edges];
        }
      }
    }

    /** Drain the messages: however many inputs were interesting, the pending edges are
        reported once. */
    method LogMessages(messages: seq<FuzzerMessage>)
      requires Valid()
      modifies this
      ensures Valid() && trace == old(trace) && edgesSeen == old(edgesSeen) && prevLoc == old(prevLoc)
      ensures Appended(old(reports), old(edgesSinceLast), Interesting in messages, reports)
      ensures edgesSinceLast == if Interesting in messages then map[] else old(edgesSinceLast)
    {
      hide HitCount, Location, Conserved, Items, Elements;
      for i := 0 to |messages|
        invariant Valid() && trace == old(trace) && edgesSeen == old(edgesSeen) && prevLoc == old(prevLoc)
        invariant edgesSinceLast == if Interesting in messages[..i] then map[] else old(edgesSinceLast)
        invariant Appended(old(reports), old(edgesSinceLast), Interesting in messages[..i], reports)
      {
        assert messages[..i + 1] == messages[..i] + [messages[i]];
        LogMessage(messages[i]);
      }
      assert messages[..|messages|] == messages;
    }
  }

  lemma LocationStep(trace: seq<Event>, e: Event, n: nat)
    requires 0 < n <= 0x1_0000_0000_0000_0000
    ensures Location(trace + [e], n) == if e.Edge? then e.pc / 2 % n else 0
  {
  }

  lemma HitCountStep(trace: seq<Event>, e: Event, cell: nat, n: nat)
    requires 0 < n <= 0x1_0000_0000_0000_0000
    ensures HitCount(trace + [e], cell, n) == HitCount(trace, cell, n)
              + if e.Edge? && EdgeIndex(e.pc, Location(trace, n), n) == cell then 1 else 0
    ensures HitCount(trace + [e], cell, n) % 256 ==
            if e.Edge? && EdgeIndex(e.pc, Location(trace, n), n) == cell then Bump(HitCount(trace, cell, n) % 256)
            else HitCount(trace, cell, n) % 256
  {
    hide Xor, Location;
    assert (trace + [e])[..|trace|] == trace;
    BumpCounts(HitCount(trace, cell, n));
  }

  lemma BumpCounts(h: nat)
    ensures Bump(h % 256) == (h + 1) % 256
  {
  }

  /** Collect the map in whatever order it iterates, then sort by address. */
  method SortedEdges(m: map<Word, nat>) returns (es: seq<LogEdge>)
    ensures StrictlySorted(es) && Elements(es) == Items(m)
  {
    es := [];
    var left := m.Keys;
    while left != {}
      invariant left <= m.Keys
      invariant StrictlySorted(es)
      invariant Elements(es) == set pc | pc in m && pc !in left :: LogEdge(pc, m[pc])
      decreases left
    {
      var pc :| pc in left;
      forall j | 0 <= j < |es|
        ensures es[j].pc != pc
      {
        assert es[j] in Elements(es);
      }
      es := Insert(es, LogEdge(pc, m[pc]));
      left := left - {pc};
    }
    assert Items(m) == set pc | pc in m && pc !in left :: LogEdge(pc, m[pc]);
  }

  method Insert(es: seq<LogEdge>, e: LogEdge) returns (r: seq<LogEdge>)
    requires StrictlySorted(es) && forall j :: 0 <= j < |es| ==> es[j].pc != e.pc
    ensures StrictlySorted(r) && Elements(r) == Elements(es) + {e}
  {
    var k := 0;
    while k < |es| && es[k].pc < e.pc
      invariant 0 <= k <= |es|
      invariant forall j :: 0 <= j < k ==> es[j].pc < e.pc
    {
      k := k + 1;
    }
    r := es[..k] + [e] + es[k..];
    assert es == es[..k] + es[k..];
  }
}
