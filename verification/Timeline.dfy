/** Rows of the timeline view. */
module Timeline {
  import opened Wrappers

  const DISPATCHED := 'D'
  const EXECUTED := 'E'
  const RETIRED := 'R'
  const WAITING := '='
  const EXECUTING := 'e'
  const RETIRE_LAG := '-'

  datatype Entry = Entry(dispatched: nat, issued: nat, executed: nat, retired: nat)

  predicate InOrder(e: Entry, first: nat, last: nat) {
    first <= e.dispatched <= e.issued <= e.executed <= e.retired <= last
  }

  /** What the instruction does in cycle `c`. */
  function Column(e: Entry, first: nat, last: nat, c: nat): char
    requires first <= c
  {
    if c < e.dispatched then (if (c - first) % 5 == 0 then '.' else ' ')
    else if c == e.dispatched then DISPATCHED
    else if c < e.issued then WAITING
    else if c < e.executed then EXECUTING
    else if c == e.executed then EXECUTED
    else if c < e.retired then RETIRE_LAG
    else if c == e.retired then RETIRED
    else if (c - e.retired - 1) % 5 == 0 || c == last then '.'
    else ' '
  }

  /** `row` shows the cycles from `first` up to `end`. */
  ghost predicate Shows(row: string, e: Entry, first: nat, last: nat, end: nat) {
    && |row| == end - first
    && forall c: nat {:trigger Column(e, first, last, c)} | first <= c < end :: row[c - first] == Column(e, first, last, c)
  }

  method Fill(row: string, ch: char, from: nat, to: nat) returns (out: string)
    ensures |out| == |row| + if from < to then to - from else 0
    ensures forall k: nat | k < |row| :: out[k] == row[k]
    ensures forall k: nat | |row| <= k < |out| :: out[k] == ch
  {
    out := row;
    var i := from;
    while i < to
      invariant (i == from || from < i <= to) && |out| == |row| + i - from
      invariant forall k: nat | k < |row| :: out[k] == row[k]
      invariant forall k: nat | |row| <= k < |out| :: out[k] == ch
    {
      out := out + [ch];
      i := i + 1;
    }
  }

  /** Shows the cycles from dispatch through execution behind those before. */
  method PrintExecution(row: string, e: Entry, ghost first: nat, ghost last: nat) returns (out: string)
    ensures InOrder(e, first, last) && Shows(row, e, first, last, e.dispatched) ==> Shows(out, e, first, last, e.executed + 1)
  {
    out := row + [DISPATCHED];
    if e.dispatched != e.executed {
      // otherwise the instruction takes no time
      out := Fill(out, WAITING, e.dispatched + 1, e.issued);
      if e.issued == e.executed {
        out := out + [EXECUTED];
      } else {
        if e.dispatched != e.issued {
          out := out + [EXECUTING];
        }
        out := Fill(out, EXECUTING, e.issued + 1, e.executed);
        out := out + [EXECUTED];
      }
    }
  }

  /** For cycles in order, the row shows every cycle from the first through the last. */
  method PrintTimelineViewEntry(e: Entry, first: nat, last: nat) returns (row: string)
    ensures InOrder(e, first, last) ==> Shows(row, e, first, last, last + 1)
  {
    row := "";
    var i := first;
    while i < e.dispatched
      invariant InOrder(e, first, last) ==> i <= e.dispatched && Shows(row, e, first, last, i)
      invariant first <= i
    {
      row := row + [if (i - first) % 5 == 0 then '.' else ' '];
      i := i + 1;
    }
    row := PrintExecution(row, e, first, last);
    row := Fill(row, RETIRE_LAG, e.executed + 1, e.retired);
    if e.executed < e.retired {
      row := row + [RETIRED];
    }
    var endCycle := e.retired + 1;
    i := endCycle;
    while i <= last
      invariant endCycle <= i
      invariant InOrder(e, first, last) ==> i <= last + 1 && Shows(row, e, first, last, i)
    {
      row := row + [if (i - endCycle) % 5 == 0 || i == last then '.' else ' '];
      i := i + 1;
    }
  }

  // ---------------------------------------------------------------------------
  // Reading a row back
  // ---------------------------------------------------------------------------

  /** What each symbol of a row says: D is the dispatch, = waiting for the issue, e executing, E the end
      of the execution, - waiting for the retirement, R that; outside, every fifth cycle from the
      first on, or behind the retirement, has a dot, and so has the last one. */
  lemma SymbolsMean(row: string, e: Entry, first: nat, last: nat, c: nat)
    requires InOrder(e, first, last) && Shows(row, e, first, last, last + 1) && first <= c <= last
    ensures var ch := row[c - first];
            && (ch == 'D' <==> c == e.dispatched)
            && (ch == '=' <==> e.dispatched < c < e.issued)
            && (ch == 'e' <==> e.dispatched < c < e.executed && e.issued <= c)
            && (ch == 'E' <==> e.dispatched < c == e.executed)
            && (ch == '-' <==> e.executed < c < e.retired)
            && (ch == 'R' <==> e.executed < c == e.retired)
            && (ch == '.' <==> || (c < e.dispatched && (c - first) % 5 == 0)
                               || (e.retired < c && ((c - e.retired - 1) % 5 == 0 || c == last)))
            && (c < e.dispatched || e.retired < c ==> ch == '.' || ch == ' ')
  {
    assert row[c - first] == Column(e, first, last, c);
  }

  function Find(row: string, ch: char): (r: Option<nat>)
    ensures r.Some? ==> r.value < |row| && row[r.value] == ch && forall k: nat | k < r.value :: row[k] != ch
    ensures r.None? ==> forall k: nat | k < |row| :: row[k] != ch
  {
    if row == "" then None
    else if row[0] == ch then Some(0)
    else
      var r := Find(row[1..], ch);
      if r.Some? then Some(r.value + 1) else None
  }

  lemma SymbolAt(row: string, e: Entry, first: nat, last: nat, ch: char, c: nat)
    requires InOrder(e, first, last) && Shows(row, e, first, last, last + 1) && first <= c <= last
    requires ch != '.' && ch != ' '
    requires Column(e, first, last, c) == ch && forall d: nat | first <= d <= last && d != c :: Column(e, first, last, d) != ch
    ensures Find(row, ch) == Some(c - first)
  {
    var r := Find(row, ch);
    assert row[c - first] == ch;
    assert r.Some? && row[r.value] == Column(e, first, last, first + r.value);
  }

  lemma NoSymbol(row: string, e: Entry, first: nat, last: nat, ch: char)
    requires InOrder(e, first, last) && Shows(row, e, first, last, last + 1)
    requires forall d: nat | first <= d <= last :: Column(e, first, last, d) != ch
    ensures Find(row, ch) == None
  {
    forall k: nat | k < |row| ensures row[k] != ch {
      assert row[k] == Column(e, first, last, first + k);
    }
  }

  /** The cycle of a symbol, or `otherwise` if it is missing. */
  function CycleOf(row: string, ch: char, first: nat, otherwise: nat): nat {
    var r := Find(row, ch);
    if r.Some? then first + r.value else otherwise
  }

  /** Dispatch, execution and retirement can be read off a row: an instruction that took no
      time has no symbol for its execution, and one that retired at once has none for that. */
  lemma CyclesCanBeRead(row: string, e: Entry, first: nat, last: nat)
    requires InOrder(e, first, last) && Shows(row, e, first, last, last + 1)
    ensures Find(row, DISPATCHED).Some?
    ensures var d := CycleOf(row, DISPATCHED, first, 0);
            var x := CycleOf(row, EXECUTED, first, d);
            d == e.dispatched && x == e.executed && CycleOf(row, RETIRED, first, x) == e.retired
  {
    SymbolAt(row, e, first, last, DISPATCHED, e.dispatched);
    if e.executed > e.dispatched {
      SymbolAt(row, e, first, last, EXECUTED, e.executed);
    } else {
      NoSymbol(row, e, first, last, EXECUTED);
    }
    if e.retired > e.executed {
      SymbolAt(row, e, first, last, RETIRED, e.retired);
    } else {
      NoSymbol(row, e, first, last, RETIRED);
    }
  }

  /** First cycle in which an instruction that took time was seen to execute. */
  function SeenExecuting(e: Entry): nat {
    Max(e.issued, e.dispatched + 1)
  }

  /** Two instructions look the same if and only if they agree on everything but whether they
      were issued as they were dispatched or in the next cycle. */
  lemma SameRowIff(row: string, e: Entry, row': string, e': Entry, first: nat, last: nat)
    requires InOrder(e, first, last) && Shows(row, e, first, last, last + 1)
    requires InOrder(e', first, last) && Shows(row', e', first, last, last + 1)
    ensures row == row' <==> && e.dispatched == e'.dispatched && e.executed == e'.executed
                             && e.retired == e'.retired && SeenExecuting(e) == SeenExecuting(e')
  {
    if row == row' {
      CyclesCanBeRead(row, e, first, last);
      CyclesCanBeRead(row', e', first, last);
      SameSymbol(row, e, e', first, last, SeenExecuting(e));
      SameSymbol(row, e, e', first, last, SeenExecuting(e'));
    }
    if && e.dispatched == e'.dispatched && e.executed == e'.executed
              && e.retired == e'.retired && SeenExecuting(e) == SeenExecuting(e') {
      forall k: nat | k < |row| ensures row[k] == row'[k] {
        assert row[k] == Column(e, first, last, first + k) == Column(e', first, last, first + k);
      }
    }
  }

  lemma SameSymbol(row: string, e: Entry, e': Entry, first: nat, last: nat, c: nat)
    requires Shows(row, e, first, last, last + 1) && Shows(row, e', first, last, last + 1) && first <= c
    ensures c <= last ==> Column(e, first, last, c) == Column(e', first, last, c)
  {
    assert c <= last ==> row[c - first] == Column(e, first, last, c) == Column(e', first, last, c);
  }

  /** So the cycle of issue cannot be read off a row. */
  lemma IssueCannotBeRead(row: string, row': string)
    requires Shows(row, Entry(0, 0, 2, 3), 0, 3, 4) && Shows(row', Entry(0, 1, 2, 3), 0, 3, 4)
    ensures row == row'
  {
    SameRowIff(row, Entry(0, 0, 2, 3), row', Entry(0, 1, 2, 3), 0, 3);
  }
}
