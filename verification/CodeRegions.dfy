/** Regions of assembly code, opened and closed by directives between the instructions. */
module CodeRegionSpec {
  import opened Wrappers

  /** Places in the source text; the default region has no start. */
  datatype Inst = Inst(loc: nat, code: nat)

  datatype Region = Region(description: string, start: Option<nat>, end: Option<nat>, insts: seq<Inst>)

  /** The regions, the indices of those that wait for their end, by name, and whether some
      directive was refused. */
  datatype State = State(regions: seq<Region>, active: map<string, nat>, errors: bool)

  const INITIAL := State([Region("", None, None, [])], map[], false)

  datatype Event = Begin(name: string, loc: nat) | End(name: string, loc: nat) | Parse(inst: Inst)

  predicate InRange(r: Region, loc: nat) {
    (r.end.Some? ==> loc <= r.end.value) && (r.start.Some? ==> r.start.value <= loc)
  }

  /** Only a region that no directive has touched has neither a start nor an end. */
  predicate Untouched(r: Region) {
    r.start.None? && r.end.None?
  }

  predicate OnlyDefault(regions: seq<Region>) {
    |regions| == 1 && Untouched(regions[0])
  }

  function BeginRegion(s: State, name: string, loc: nat): State {
    var region := Region(name, Some(loc), None, []);
    if s.active == map[] && OnlyDefault(s.regions) then s.(regions := [region], active := map[name := 0])
    else if name in s.active then s.(errors := true)
    else s.(regions := s.regions + [region], active := s.active[name := |s.regions|])
  }

  lemma OnlyOne(m: map<string, nat>, a: string, b: string)
    requires |m| == 1 && a in m && b in m
    ensures a == b
  {
    assert a != b ==> |{a, b}| == 2;
    Bounded({a, b}, m.Keys);
    assert |m.Keys| == |m|;
  }

  lemma {:induction false} Bounded<T>(a: set<T>, b: set<T>)
    requires a <= b
    ensures |a| <= |b|
  {
    if a == {} {
    } else {
      var x :| x in a;
      Bounded(a - {x}, b - {x});
    }
  }

  ghost function SomeName(m: map<string, nat>): (name: string)
    requires m != map[]
    ensures name in m
  {
    assert |m| != 0;
    var d :| d in m; d
  }

  /** The active region that an end directive ends: without a name, the only one there is. */
  ghost function Ended(m: map<string, nat>, name: string): (d: Option<string>)
    ensures d.Some? ==> d.value in m
  {
    if name == "" && |m| == 1 then Some(SomeName(m)) else if name in m then Some(name) else None
  }

  function CloseAt(regions: seq<Region>, i: nat, loc: nat): (r: seq<Region>)
    requires i < |regions|
    ensures |r| == |regions|
  {
    regions[i := regions[i].(end := Some(loc))]
  }

  /** Ends the active region named `d`. */
  ghost function CloseActive(s: State, d: string, loc: nat): State
    requires d in s.active && s.active[d] < |s.regions|
  {
    s.(regions := CloseAt(s.regions, s.active[d], loc), active := s.active - {d})
  }

  ghost function EndRegion(s: State, name: string, loc: nat): State
    requires Naming(s)
  {
    var d := Ended(s.active, name);
    if d.Some? then CloseActive(s, d.value, loc)
    else if name == "" && s.active == map[] && OnlyDefault(s.regions) then s.(regions := CloseAt(s.regions, 0, loc))
    else s.(errors := true)
  }

  function Offered(r: Region, inst: Inst): Region {
    if InRange(r, inst.loc) then r.(insts := r.insts + [inst]) else r
  }

  function AddInstruction(regions: seq<Region>, inst: Inst): (r: seq<Region>)
    ensures |r| == |regions|
    ensures forall i: nat | i < |regions| :: r[i] == Offered(regions[i], inst)
  {
    if regions == [] then [] else
      var n := |regions| - 1;
      AddInstruction(regions[..n], inst) + [Offered(regions[n], inst)]
  }

  // ---------------------------------------------------------------------------
  // Names
  // ---------------------------------------------------------------------------

  /** Started by a directive, and not ended. */
  predicate IsOpen(r: Region) {
    r.start.Some? && r.end.None?
  }

  /** Only the first region can be without a start, and it is ended before there is another. */
  ghost predicate DefaultIsFirst(regions: seq<Region>) {
    && regions != []
    && (forall i | 0 < i < |regions| :: regions[i].start.Some?)
    && (|regions| > 1 ==> !Untouched(regions[0]))
  }

  /** The active map names exactly the open regions, one to one. */
  ghost predicate Naming(s: State) {
    && DefaultIsFirst(s.regions)
    && (forall d | d in s.active ::
          var i := s.active[d]; i < |s.regions| && IsOpen(s.regions[i]) && s.regions[i].description == d)
    && (forall i: nat | i < |s.regions| && IsOpen(s.regions[i]) ::
          s.regions[i].description in s.active && s.active[s.regions[i].description] == i)
  }

  lemma BeginKeepsNaming(s: State, name: string, loc: nat)
    requires Naming(s)
    ensures Naming(BeginRegion(s, name, loc))
  {
    if s.active != map[] { ActiveIsNotDefault(s, SomeName(s.active)); }
    if !OnlyDefault(s.regions) && name !in s.active { OpenOneMore(s, name, loc); }
  }

  /** Where something is open, the untouched default region is not all there is. */
  lemma ActiveIsNotDefault(s: State, d: string)
    requires Naming(s) && d in s.active
    ensures !OnlyDefault(s.regions)
  {
  }

  lemma OpenOneMore(s: State, name: string, loc: nat)
    requires Naming(s) && !OnlyDefault(s.regions) && name !in s.active
    ensures Naming(s.(regions := s.regions + [Region(name, Some(loc), None, [])], active := s.active[name := |s.regions|]))
  {
    var regions' := s.regions + [Region(name, Some(loc), None, [])];
    assert forall i: nat | i < |s.regions| :: regions'[i] == s.regions[i];
  }

  lemma ActiveAreRegions(s: State)
    requires Naming(s)
    ensures s.regions != [] && forall d | d in s.active :: s.active[d] < |s.regions|
  {
  }

  lemma CloseKeepsNaming(s: State, d: string, loc: nat)
    requires Naming(s) && d in s.active
    ensures s.active[d] < |s.regions| && Naming(CloseActive(s, d, loc))
  {
  }

  lemma CloseDefaultKeepsNaming(s: State, loc: nat)
    requires Naming(s) && OnlyDefault(s.regions)
    ensures Naming(s.(regions := CloseAt(s.regions, 0, loc)))
  {
  }

  lemma EndKeepsNaming(s: State, name: string, loc: nat)
    requires Naming(s)
    ensures Naming(EndRegion(s, name, loc))
  {
    hide CloseActive, CloseAt, OnlyDefault;
    var d := Ended(s.active, name);
    if d.Some? {
      CloseKeepsNaming(s, d.value, loc);
    } else if OnlyDefault(s.regions) {
      CloseDefaultKeepsNaming(s, loc);
    }
  }

  lemma AddKeepsNaming(s: State, inst: Inst)
    requires Naming(s)
    ensures Naming(s.(regions := AddInstruction(s.regions, inst)))
  {
    var t := s.(regions := AddInstruction(s.regions, inst));
    assert forall i: nat | i < |s.regions| :: IsOpen(t.regions[i]) == IsOpen(s.regions[i]);
  }

  ghost function Step(s: State, e: Event): (t: State)
    requires Naming(s)
    ensures Naming(t)
  {
    match e
    case Begin(name, loc) => BeginKeepsNaming(s, name, loc); BeginRegion(s, name, loc)
    case End(name, loc) => EndKeepsNaming(s, name, loc); EndRegion(s, name, loc)
    case Parse(inst) => AddKeepsNaming(s, inst); s.(regions := AddInstruction(s.regions, inst))
  }

  /** The regions after any directives and instructions, refused directives among them; the
      active map names exactly the open ones. */
  ghost function After(ev: seq<Event>): (s: State)
    ensures Naming(s)
  {
    if ev == [] then INITIAL else Step(After(ev[..|ev| - 1]), ev[|ev| - 1])
  }

  // ---------------------------------------------------------------------------
  // Contents
  // ---------------------------------------------------------------------------

  /** The instructions parsed so far. */
  function Parsed(ev: seq<Event>): seq<Inst> {
    if ev == [] then [] else
      Parsed(ev[..|ev| - 1]) + if ev[|ev| - 1].Parse? then [ev[|ev| - 1].inst] else []
  }

  /** Every directive stands behind the instructions parsed before it. */
  predicate InSourceOrder(ev: seq<Event>) {
    ev == [] ||
    var e := ev[|ev| - 1];
    && InSourceOrder(ev[..|ev| - 1])
    && (!e.Parse? ==> forall x | x in Parsed(ev[..|ev| - 1]) :: x.loc < e.loc)
  }

  /** A place is not before the start of a region that has one, nor behind the end of one that has one. */
  predicate LiesIn(start: Option<nat>, end: Option<nat>, loc: nat) {
    match (start, end)
    case (None, None) => true
    case (Some(a), None) => a <= loc
    case (None, Some(b)) => loc <= b
    case (Some(a), Some(b)) => a <= loc <= b
  }

  /** The instructions that lie in `r`, in order. */
  function Within(r: Region, insts: seq<Inst>): (w: seq<Inst>)
    ensures forall x :: x in w <==> x in insts && LiesIn(r.start, r.end, x.loc)
  {
    if insts == [] then [] else
      var n := |insts| - 1;
      assert insts == insts[..n] + [insts[n]];
      Within(r, insts[..n]) + if LiesIn(r.start, r.end, insts[n].loc) then [insts[n]] else []
  }

  /** Nothing lies in a region that begins behind all instructions. */
  lemma {:induction false} NoneBefore(r: Region, insts: seq<Inst>)
    requires r.start.Some? && forall x | x in insts :: x.loc < r.start.value
    ensures Within(r, insts) == []
  {
    if insts == [] {
    } else {
      NoneBefore(r, insts[..|insts| - 1]);
    }
  }

  /** What lies in a region does not change when it is ended behind all instructions, nor with
      what has been added to it. */
  lemma {:induction false} SameRange(r: Region, q: Region, insts: seq<Inst>)
    requires r.start == q.start && (r.end == q.end || (r.end.None? && forall x | x in insts :: x.loc < q.end.value))
    ensures Within(r, insts) == Within(q, insts)
  {
    if insts == [] {
    } else {
      assert insts[|insts| - 1] in insts;
      SameRange(r, q, insts[..|insts| - 1]);
    }
  }

  ghost predicate HoldsItsRange(r: Region, insts: seq<Inst>) {
    r.insts == Within(r, insts)
  }

  ghost predicate AllHold(regions: seq<Region>, insts: seq<Inst>) {
    forall i: nat {:trigger HoldsItsRange(regions[i], insts)} | i < |regions| :: HoldsItsRange(regions[i], insts)
  }

  lemma AddHolds(r: Region, insts: seq<Inst>, inst: Inst)
    requires HoldsItsRange(r, insts)
    ensures HoldsItsRange(Offered(r, inst), insts + [inst])
  {
    assert (insts + [inst])[..|insts|] == insts;
    SameRange(Offered(r, inst), r, insts);
  }

  lemma CloseHolds(regions: seq<Region>, i: nat, loc: nat, insts: seq<Inst>)
    requires AllHold(regions, insts) && i < |regions| && regions[i].end.None? && forall x | x in insts :: x.loc < loc
    ensures AllHold(CloseAt(regions, i, loc), insts)
  {
    var t := CloseAt(regions, i, loc);
    forall k: nat | k < |t| ensures HoldsItsRange(t[k], insts) {
      assert HoldsItsRange(regions[k], insts);
      SameRange(regions[k], t[k], insts);
    }
  }

  lemma BeginHolds(s: State, name: string, loc: nat, insts: seq<Inst>)
    requires AllHold(s.regions, insts) && forall x | x in insts :: x.loc < loc
    ensures AllHold(BeginRegion(s, name, loc).regions, insts)
  {
    hide LiesIn, Within, OnlyDefault;
    var t, region := BeginRegion(s, name, loc).regions, Region(name, Some(loc), None, []);
    NoneBefore(region, insts);
    assert HoldsItsRange(region, insts);
    forall k: nat | k < |t| ensures HoldsItsRange(t[k], insts) {
      if k < |s.regions| { assert HoldsItsRange(s.regions[k], insts); }
    }
  }

  lemma EndHolds(s: State, name: string, loc: nat, insts: seq<Inst>)
    requires Naming(s) && AllHold(s.regions, insts) && forall x | x in insts :: x.loc < loc
    ensures AllHold(EndRegion(s, name, loc).regions, insts)
  {
    hide LiesIn, Within, HoldsItsRange, AllHold, CloseAt;
    var d := Ended(s.active, name);
    if d.Some? {
      CloseHolds(s.regions, s.active[d.value], loc, insts);
    } else if name == "" && s.active == map[] && OnlyDefault(s.regions) {
      CloseHolds(s.regions, 0, loc, insts);
    }
  }

  lemma ParseHolds(regions: seq<Region>, insts: seq<Inst>, inst: Inst)
    requires AllHold(regions, insts)
    ensures AllHold(AddInstruction(regions, inst), insts + [inst])
  {
    hide InRange, LiesIn, Within, Offered;
    forall k: nat | k < |regions| ensures HoldsItsRange(AddInstruction(regions, inst)[k], insts + [inst]) {
      assert HoldsItsRange(regions[k], insts);
      AddHolds(regions[k], insts, inst);
    }
  }

  /** In source order, every region holds exactly the instructions of its final range, in
      order, as if it had been filled after the fact. */
  lemma {:induction false} RegionsHoldTheirRange(ev: seq<Event>)
    requires InSourceOrder(ev)
    ensures AllHold(After(ev).regions, Parsed(ev))
  {
    hide Naming, AllHold, HoldsItsRange, BeginRegion, EndRegion, AddInstruction;
    if ev == [] {
      NothingHeld();
    } else {
      var s, e, insts := After(ev[..|ev| - 1]), ev[|ev| - 1], Parsed(ev[..|ev| - 1]);
      RegionsHoldTheirRange(ev[..|ev| - 1]);
      assert !e.Parse? ==> Parsed(ev) == insts;
      match e
      case Begin(name, loc) => BeginHolds(s, name, loc, insts);
      case End(name, loc) => EndHolds(s, name, loc, insts);
      case Parse(inst) => ParseHolds(s.regions, insts, inst);
    }
  }

  /** So an instruction is in a region exactly if it was parsed, at or behind the region's start if
      it has one, and at or before its end if it has one. */
  lemma HeldIff(ev: seq<Event>, i: nat, x: Inst)
    requires InSourceOrder(ev) && i < |After(ev).regions|
    ensures var r := After(ev).regions[i];
            x in r.insts <==> && x in Parsed(ev)
                              && (r.start.Some? ==> r.start.value <= x.loc) && (r.end.Some? ==> x.loc <= r.end.value)
  {
    hide After, Naming, Within;
    RegionsHoldTheirRange(ev);
    assert HoldsItsRange(After(ev).regions[i], Parsed(ev));
  }

  /** Whatever the events were, the next instruction goes to the end of every region in which it
      lies, and changes nothing in the others; neither starts nor ends move. */
  lemma ParsedGoesWhere(ev: seq<Event>, x: Inst, i: nat)
    requires i < |After(ev).regions|
    ensures |After(ev + [Parse(x)]).regions| == |After(ev).regions|
    ensures var r, r' := After(ev).regions[i], After(ev + [Parse(x)]).regions[i];
            && r'.start == r.start && r'.end == r.end
            && ((r.start.Some? && x.loc < r.start.value) || (r.end.Some? && r.end.value < x.loc) ==> r'.insts == r.insts)
            && ((r.start.Some? ==> r.start.value <= x.loc) && (r.end.Some? ==> x.loc <= r.end.value) ==>
                  r'.insts == r.insts + [x])
  {
    hide Naming, AddInstruction;
    AfterOneMore(ev, Parse(x));
  }

  lemma NothingHeld()
    ensures AllHold(INITIAL.regions, [])
  {
    assert HoldsItsRange(INITIAL.regions[0], []);
  }

  // ---------------------------------------------------------------------------
  // Errors
  // ---------------------------------------------------------------------------

  /** A book of names alone: the open ones, whether the default region is untouched, and
      whether a directive was refused. */
  datatype Book = Book(open: set<string>, untouched: bool, errors: bool)

  function Noted(b: Book, e: Event): Book {
    match e
    case Begin(name, _) =>
      if name in b.open then b.(errors := true) else b.(open := b.open + {name}, untouched := false)
    case End(name, _) =>
      if name == "" && |b.open| == 1 then b.(open := {})
      else if name in b.open then b.(open := b.open - {name})
      else if name == "" && b.untouched then b.(untouched := false)
      else b.(errors := true)
    case Parse(_) => b
  }

  function BookOf(ev: seq<Event>): Book {
    if ev == [] then Book({}, true, false) else Noted(BookOf(ev[..|ev| - 1]), ev[|ev| - 1])
  }

  ghost predicate Agree(s: State, b: Book) {
    s.active.Keys == b.open && OnlyDefault(s.regions) == b.untouched && s.errors == b.errors
  }

  lemma BeginAgrees(s: State, b: Book, name: string, loc: nat)
    requires Naming(s) && Agree(s, b)
    ensures Agree(BeginRegion(s, name, loc), Noted(b, Begin(name, loc)))
  {
    assert s.active != map[] ==> SomeName(s.active) in s.active;
  }

  lemma EndAgrees(s: State, b: Book, name: string, loc: nat)
    requires Naming(s) && Agree(s, b)
    ensures Agree(EndRegion(s, name, loc), Noted(b, End(name, loc)))
  {
    var t, d := EndRegion(s, name, loc), Ended(s.active, name);
    assert |s.active.Keys| == |s.active|;
    if name == "" && |s.active| == 1 {
      forall a | a in s.active ensures a == d.value { OnlyOne(s.active, a, d.value); }
      assert t.active.Keys == {};
    }
    assert s.active == map[] <==> s.active.Keys == {};
  }

  /** A directive is refused exactly when the names alone refuse it: a region begins under a
      name that is open, or ends under one that is not. */
  lemma {:induction false} ErrorsIffNamesClash(ev: seq<Event>)
    ensures Agree(After(ev), BookOf(ev))
  {
    hide Naming, BeginRegion, EndRegion, AddInstruction;
    if ev != [] {
      var s, b, e := After(ev[..|ev| - 1]), BookOf(ev[..|ev| - 1]), ev[|ev| - 1];
      ErrorsIffNamesClash(ev[..|ev| - 1]);
      match e
      case Begin(name, loc) => BeginAgrees(s, b, name, loc);
      case End(name, loc) => EndAgrees(s, b, name, loc);
      case Parse(inst) => ParseAgrees(s, b, inst);
    } else {
      assert INITIAL.active.Keys == {};
    }
  }

  lemma ParseAgrees(s: State, b: Book, inst: Inst)
    requires Agree(s, b)
    ensures Agree(s.(regions := AddInstruction(s.regions, inst)), Noted(b, Parse(inst)))
  {
  }

  // ---------------------------------------------------------------------------
  // Overlap
  // ---------------------------------------------------------------------------

  ghost predicate AtMostOneOpen(regions: seq<Region>) {
    forall i: nat, j: nat | i < j < |regions| :: !(IsOpen(regions[i]) && IsOpen(regions[j]))
  }

  ghost predicate OneOpenAt(ev: seq<Event>, k: nat)
    requires k <= |ev|
  {
    AtMostOneOpen(After(ev[..k]).regions)
  }

  /** At no time two regions are open. */
  ghost predicate NoneOverlap(ev: seq<Event>) {
    forall k: nat | k <= |ev| :: OneOpenAt(ev, k)
  }

  /** A region does not begin while one with another name is open. */
  predicate BeginsAlone(b: Book, e: Event) {
    e.Begin? ==> b.open <= {e.name}
  }

  predicate AloneAt(ev: seq<Event>, k: nat)
    requires k < |ev|
  {
    BeginsAlone(BookOf(ev[..k]), ev[k])
  }

  lemma OneOpenIffOneName(s: State, b: Book)
    requires Naming(s) && Agree(s, b)
    ensures AtMostOneOpen(s.regions) <==> forall c, d | c in b.open && d in b.open :: c == d
  {
    if AtMostOneOpen(s.regions) {
      forall c, d | c in b.open && d in b.open ensures c == d {
        var i: nat, j: nat := s.active[c], s.active[d];
        assert IsOpen(s.regions[i]) && IsOpen(s.regions[j]);
      }
    }
  }

  lemma OverlapStep(b: Book, e: Event)
    requires forall c, d | c in b.open && d in b.open :: c == d
    ensures BeginsAlone(b, e) <==> forall c, d | c in Noted(b, e).open && d in Noted(b, e).open :: c == d
  {
    var b' := Noted(b, e);
    if !BeginsAlone(b, e) {
      var c :| c in b.open && c != e.name;
      assert c in b'.open && e.name in b'.open;
    }
  }

  lemma OverlapAt(ev: seq<Event>, k: nat)
    requires k < |ev| && OneOpenAt(ev, k)
    ensures OneOpenAt(ev, k + 1) <==> AloneAt(ev, k)
  {
    hide AtMostOneOpen, BeginsAlone, Naming, Agree, Noted, Step;
    ErrorsIffNamesClash(ev[..k]);
    ErrorsIffNamesClash(ev[..k + 1]);
    OneOpenIffOneName(After(ev[..k]), BookOf(ev[..k]));
    OneOpenIffOneName(After(ev[..k + 1]), BookOf(ev[..k + 1]));
    OverlapStep(BookOf(ev[..k]), ev[k]);
    assert ev[..k + 1][..k] == ev[..k];
  }

  lemma {:induction false} OverlapSoFar(ev: seq<Event>, n: nat)
    requires n <= |ev|
    ensures (forall k: nat | k <= n :: OneOpenAt(ev, k)) <==> forall k: nat | k < n :: AloneAt(ev, k)
  {
    hide OneOpenAt, AloneAt;
    if n == 0 {
      OnlyDefaultIsNotOpen(ev);
    } else {
      OverlapSoFar(ev, n - 1);
      if OneOpenAt(ev, n - 1) { OverlapAt(ev, n - 1); }
    }
  }

  lemma OnlyDefaultIsNotOpen(ev: seq<Event>)
    ensures OneOpenAt(ev, 0)
  {
    assert ev[..0] == [];
  }

  /** Regions are not allowed to overlap, it is said.  The exact condition: at no time two
      regions are open if and only if none begins while one with another name is open. */
  lemma NoneOverlapIff(ev: seq<Event>)
    ensures NoneOverlap(ev) <==> forall k: nat | k < |ev| :: AloneAt(ev, k)
  {
    OverlapSoFar(ev, |ev|);
  }

  lemma AfterOneMore(ev: seq<Event>, e: Event)
    ensures After(ev + [e]) == Step(After(ev), e)
  {
    assert (ev + [e])[..|ev|] == ev;
  }

  /** Two regions with different names that overlap; neither directive is refused. */
  lemma NamesMayOverlap(a: string, b: string, from: nat, to: nat)
    requires a != b
    ensures After([Begin(a, from), Begin(b, to)])
         == State([Region(a, Some(from), None, []), Region(b, Some(to), None, [])], map[a := 0, b := 1], false)
    ensures !NoneOverlap([Begin(a, from), Begin(b, to)])
  {
    hide Naming, After;
    var ev := [Begin(a, from), Begin(b, to)];
    NothingYet();
    AfterOneMore([], Begin(a, from));
    assert [] + [Begin(a, from)] == [Begin(a, from)];
    AfterOneMore([Begin(a, from)], Begin(b, to));
    assert [Begin(a, from)] + [Begin(b, to)] == ev && ev[..2] == ev;
    assert IsOpen(After(ev).regions[0]) && IsOpen(After(ev).regions[1]) && !OneOpenAt(ev, 2);
  }

  lemma NothingYet()
    ensures After([]) == INITIAL
  {
  }

  // ---------------------------------------------------------------------------
  // Which region an end directive ends
  // ---------------------------------------------------------------------------

  /** The directive ends region `i`, and no other. */
  ghost predicate EndsRegion(s: State, name: string, loc: nat, i: nat)
    requires Naming(s) && i < |s.regions|
  {
    s.regions[i].end.None? && EndRegion(s, name, loc).regions == CloseAt(s.regions, i, loc)
  }

  /** A directive ends region `i` exactly if that is open and either has the name given or is
      the only open one and no name is given, or is the default region and no name is given. */
  lemma EndsRegionIff(s: State, name: string, loc: nat, i: nat)
    requires Naming(s) && i < |s.regions|
    ensures var r := s.regions[i];
            (EndsRegion(s, name, loc, i)
        <==> (IsOpen(r) && (name == r.description || (name == "" && |s.active| == 1))) || (Untouched(r) && name == ""))
  {
    var r, d := s.regions[i], Ended(s.active, name);
    if d.Some? {
      var k := s.active[d.value];
      assert IsOpen(s.regions[k]) && s.regions[k].description == d.value;
      if name == "" && |s.active| == 1 && IsOpen(r) { OnlyOne(s.active, d.value, r.description); }
      assert CloseAt(s.regions, k, loc)[k].end == Some(loc);
    } else if EndsRegion(s, name, loc, i) {
      assert CloseAt(s.regions, i, loc)[i].end == Some(loc);
    }
  }

  /** An end directive marks the end of the region seen last, it is said.  Without a name it does,
      after any events, if and only if that region is the only open one, or is open and has no
      name, or is the default region and has no end. */
  lemma EndsLastIff(ev: seq<Event>, loc: nat)
    ensures var s := After(ev);
            var n := |s.regions| - 1;
            n >= 0 && var r := s.regions[n];
            (EndsRegion(s, "", loc, n) <==> (IsOpen(r) && (r.description == "" || |s.active| == 1)) || Untouched(r))
  {
    hide BeginRegion, EndRegion;
    var s := After(ev);
    EndsRegionIff(s, "", loc, |s.regions| - 1);
  }

  /** An end directive without a name that ends the anonymous region, though another has begun since. */
  lemma EndsEarlierRegion(name: string, from: nat, next: nat, to: nat)
    requires name != ""
    ensures After([Begin("", from), Begin(name, next), End("", to)])
         == State([Region("", Some(from), Some(to), []), Region(name, Some(next), None, [])], map[name := 1], false)
  {
    hide Naming, After, EndRegion;
    var two := [Begin("", from), Begin(name, next)];
    NamesMayOverlap("", name, from, next);
    AfterOneMore(two, End("", to));
    assert two + [End("", to)] == [Begin("", from), Begin(name, next), End("", to)];
    EndsNameless(After(two), name, from, next, to);
  }

  lemma EndsNameless(s: State, name: string, from: nat, next: nat, to: nat)
    requires name != "" && Naming(s) && s.active == map["" := 0, name := 1] && !s.errors
    requires s.regions == [Region("", Some(from), None, []), Region(name, Some(next), None, [])]
    ensures EndRegion(s, "", to)
         == State([Region("", Some(from), Some(to), []), Region(name, Some(next), None, [])], map[name := 1], false)
  {
    hide Naming;
    assert |s.active| == 2;
    assert s.active - {""} == map[name := 1];
  }
}

module CodeRegions {
  import opened Wrappers
  import opened CodeRegionSpec

  class CodeRegion {
    const description: string
    const rangeStart: Option<nat>
    var rangeEnd: Option<nat>
    var instructions: seq<Inst>

    constructor (description: string, start: Option<nat>)
      ensures View() == Region(description, start, None, [])
    {
      this.description, rangeStart, rangeEnd, instructions := description, start, None, [];
    }

    function View(): Region
      reads this
    {
      Region(description, rangeStart, rangeEnd, instructions)
    }

    method AddInstruction(inst: Inst)
      modifies `instructions
      ensures View() == old(View()).(insts := old(instructions) + [inst])
    {
      instructions := instructions + [inst];
    }

    method SetEndLocation(loc: nat)
      modifies `rangeEnd
      ensures View() == old(View()).(end := Some(loc))
    {
      rangeEnd := Some(loc);
    }
  }

  /** The regions look like `views`. */
  ghost predicate LookLike(regions: seq<CodeRegion>, views: seq<Region>)
    reads regions
  {
    && |regions| == |views|
    && forall i: nat | i < |regions| :: regions[i].View() == views[i]
  }

  ghost predicate Distinct(regions: seq<CodeRegion>) {
    forall i: nat, j: nat | i < j < |regions| :: regions[i] != regions[j]
  }

  class CodeRegionTable {
    var regions: seq<CodeRegion>
    var activeRegions: map<string, nat>
    var foundErrors: bool
    ghost var contents: State

    ghost predicate Valid()
      reads this, regions
    {
      && Distinct(regions) && LookLike(regions, contents.regions)
      && activeRegions == contents.active && foundErrors == contents.errors
      && Naming(contents)
    }

    /** Starts with a default region for the whole text. */
    constructor ()
      ensures Valid() && contents == INITIAL && fresh(regions)
    {
      var region := new CodeRegion("", None);
      regions, activeRegions, foundErrors := [region], map[], false;
      contents := INITIAL;
    }

    lemma FirstLooks()
      requires Valid()
      ensures regions != [] && |regions| == |contents.regions| && regions[0].View() == contents.regions[0]
    {
    }

    /** A new region behind the others. */
    method AppendRegion(name: string, loc: nat, ghost views: seq<Region>)
      requires Distinct(regions) && LookLike(regions, views)
      modifies `regions
      ensures Distinct(regions) && LookLike(regions, views + [Region(name, Some(loc), None, [])])
      ensures forall r | r in regions :: r in old(regions) || fresh(r)
    {
      var region := new CodeRegion(name, Some(loc));
      regions := regions + [region];
    }

    method BeginRegionAt(name: string, loc: nat)
      requires Valid()
      modifies this
      ensures Valid() && contents == BeginRegion(old(contents), name, loc)
      ensures forall r | r in regions :: r in old(regions) || fresh(r)
    {
      hide Naming;
      BeginKeepsNaming(contents, name, loc);
      ghost var before := contents.regions;
      contents := BeginRegion(contents, name, loc);
      if activeRegions == map[] {
        if |regions| == 1 && regions[0].rangeStart.None? && regions[0].rangeEnd.None? {
          // the first region of the user replaces the default one
          activeRegions := map[name := 0];
          var only := new CodeRegion(name, Some(loc));
          regions := [only];
          return;
        }
      } else if name in activeRegions {
        foundErrors := true;
        return;
      }
      activeRegions := activeRegions[name := |regions|];
      AppendRegion(name, loc, before);
    }

    /** Ends the region with index `i`. */
    method SetEnd(i: nat, loc: nat, ghost views: seq<Region>)
      requires Distinct(regions) && i < |regions| && LookLike(regions, views)
      modifies regions
      ensures LookLike(regions, CloseAt(views, i, loc))
    {
      regions[i].SetEndLocation(loc);
    }

    /** Ends the active region named `d`. */
    method EndActive(d: string, loc: nat)
      requires Valid() && d in activeRegions
      modifies this, regions
      ensures Valid() && regions == old(regions)
      ensures old(contents.active)[d] < |old(contents.regions)| && contents == CloseActive(old(contents), d, loc)
    {
      hide Naming, CloseAt;
      CloseKeepsNaming(contents, d, loc);
      ActiveAreRegions(contents);
      var i := activeRegions[d];
      ghost var before := contents.regions;
      activeRegions := activeRegions - {d};
      contents := CloseActive(contents, d, loc);
      SetEnd(i, loc, before);
    }

    method EndRegionAt(name: string, loc: nat)
      requires Valid()
      modifies this, regions
      ensures Valid() && contents == EndRegion(old(contents), name, loc) && regions == old(regions)
    {
      hide Naming, CloseAt, CloseActive, LookLike, Distinct;
      ActiveAreRegions(contents);
      FirstLooks();
      if name == "" {
        if |activeRegions| == 1 {
          // the only active region, whatever its name
          var d :| d in activeRegions;
          OnlyOne(activeRegions, d, SomeName(activeRegions));
          EndActive(d, loc);
          return;
        }
        if activeRegions == map[] && |regions| == 1 && regions[0].rangeStart.None? && regions[0].rangeEnd.None? {
          CloseDefaultKeepsNaming(contents, loc);
          SetEnd(0, loc, contents.regions);
          contents := contents.(regions := CloseAt(contents.regions, 0, loc));
          return;
        }
      }
      if name in activeRegions {
        EndActive(name, loc);
        return;
      }
      EndKeepsNaming(contents, name, loc);
      foundErrors := true;
      contents := EndRegion(contents, name, loc);
    }

    /** Offers an instruction to every region. */
    method AddInstructionToAll(inst: Inst)
      requires Valid()
      modifies `contents, regions
      ensures Valid() && contents == old(contents).(regions := AddInstruction(old(contents.regions), inst))
    {
      hide Naming, InRange;
      AddKeepsNaming(contents, inst);
      ghost var before := contents.regions;
      contents := contents.(regions := AddInstruction(contents.regions, inst));
      ghost var after := contents;
      for i := 0 to |regions|
        invariant contents == after
        invariant forall k: nat | k < |regions| :: regions[k].View() == if k < i then Offered(before[k], inst) else before[k]
      {
        if InRange(regions[i].View(), inst.loc) {
          regions[i].AddInstruction(inst);
        }
      }
      assert LookLike(regions, after.regions);
    }
  }
}
