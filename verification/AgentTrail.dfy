/**
 The straight stretches of code the loop check walks, one for each side of a jump, and what its marks say of
 those walked so far.
 */
module AgentTrail {
  import opened AgentCode

  /** An entry of the loop check's list of jumps: the address of the operand, and whether the
      fall-through side is done. */
  datatype Jump = Jump(addr: nat, done: bool)

  predicate Listed(list: seq<Jump>, addr: nat) {
    Jump(addr, false) in list || Jump(addr, true) in list
  }

  predicate IsJump(op: Byte) {
    op == GOTO || op == IF_GOTO
  }

  /** Opcodes after which the walk goes on with the next instruction. */
  predicate Sequential(op: Byte) {
    (Popping(op) && op != IF_GOTO) || IsUnary(op) || IsSource(op) || HasVariable(op)
  }

  /** Where a stretch begins: at the first instruction, where the jump at `p` goes, or behind the if_goto at
      `p`. */
  datatype Side = Start | Taken(p: nat) | Past(p: nat)

  function From(code: seq<Byte>, e: Side): nat
    requires e.Taken? ==> e.p + 3 <= |code|
  {
    match e
    case Start => 0
    case Taken(p) => Word(code, p + 1)
    case Past(p) => p + 3
  }

  /** From `d` the code leads straight to `q`. */
  predicate Leads(code: seq<Byte>, d: nat, q: nat)
    decreases |code| - d
  {
    d < |code| && (d == q || (Sequential(code[d]) && Leads(code, Following(code, d), q)))
  }

  /** An instruction that gets its checked form when the walk comes to it, and would not be known if the walk
      came to it again. */
  predicate Rewritten(code: seq<Byte>, q: nat) {
    q < |code| && Popping(code[q]) && code[q] != IF_GOTO
  }

  lemma {:induction false} LeadsAhead(code: seq<Byte>, d: nat, q: nat)
    requires Leads(code, d, q)
    ensures d <= q < |code|
    decreases |code| - d
  {
    if d != q {
      LeadsAhead(code, Following(code, d), q);
    }
  }

  lemma {:induction false} LeadsOn(code: seq<Byte>, d: nat, p: nat)
    requires Leads(code, d, p)
    ensures p < |code|
    ensures Sequential(code[p]) && Following(code, p) < |code| ==> Leads(code, d, Following(code, p))
    decreases |code| - d
  {
    if d != p {
      LeadsOn(code, Following(code, d), p);
    }
  }

  /** On one stretch, what comes after an instruction comes after the whole of it. */
  lemma {:induction false} LeadsBetween(code: seq<Byte>, d: nat, p: nat, q: nat)
    requires Leads(code, d, p) && Leads(code, d, q) && p < q
    ensures p < |code| && Sequential(code[p]) && Following(code, p) <= q
    decreases |code| - d
  {
    LeadsAhead(code, d, p);
    LeadsAhead(code, d, q);
    if d == p {
      LeadsAhead(code, Following(code, d), q);
    } else {
      LeadsBetween(code, Following(code, d), p, q);
    }
  }

  // ----- code the loop check accepts -----

  /** An instruction the loop check lets through when it first comes to it. */
  predicate Fine(code: seq<Byte>, vars: seq<Var>, p: nat) {
    && p < |code| && Following(code, p) <= |code| && code[p] != SETV
    && (code[p] == END || IsJump(code[p]) || Sequential(code[p]))
    && (HasVariable(code[p]) ==> Allowed(vars, code[p], Word(code, p + 1)))
  }

  /** A side of one of these instructions. */
  predicate SideOf(code: seq<Byte>, reach: set<nat>, e: Side) {
    match e
    case Start => true
    case Taken(p) => p in reach && p + 3 <= |code| && IsJump(code[p])
    case Past(p) => p in reach && p + 3 <= |code| && code[p] == IF_GOTO
  }

  /** The stretch of the side comes over q. */
  predicate Meet(code: seq<Byte>, reach: set<nat>, e: Side, q: nat) {
    SideOf(code, reach, e) && Leads(code, From(code, e), q)
  }

  /** The sides' stretches have no popping instruction in common. */
  ghost predicate Apart(code: seq<Byte>, reach: set<nat>) {
    forall e, f, q ::
      Meet(code, reach, e, q) && Meet(code, reach, f, q) && Rewritten(code, q) ==> e == f
  }

  /** What control can reach is fine, and the ways it comes do not meet on a popping instruction. */
  ghost predicate Loops(code: seq<Byte>, vars: seq<Var>) {
    exists reach: set<nat> :: Reaches(code, vars, reach)
  }

  ghost predicate Reaches(code: seq<Byte>, vars: seq<Var>, reach: set<nat>) {
    Closed(code, reach) && (forall p :: p in reach ==> Fine(code, vars, p)) && Apart(code, reach)
  }

  // ----- what has been walked -----

  /** The side has been walked, or is being walked. */
  predicate Explored(code: seq<Byte>, list: seq<Jump>, e: Side) {
    match e
    case Start => true
    case Taken(p) => p + 3 <= |code| && Listed(list, p + 1)
    case Past(p) => p + 3 <= |code| && code[p] == IF_GOTO && Jump(p + 1, true) in list
  }

  /** The walk has come over q on that side; it is on side `cur` now, at `pc`. */
  predicate Passed(code: seq<Byte>, list: seq<Jump>, cur: Side, pc: nat, e: Side, q: nat) {
    Explored(code, list, e) && Leads(code, From(code, e), q) && (e == cur ==> q < pc)
  }

  /** The marks are on the popping instructions passed, each passed once. */
  ghost predicate Trail(code: seq<Byte>, marked: set<nat>, list: seq<Jump>, cur: Side, pc: nat) {
    && Explored(code, list, cur) && (pc < |code| ==> Leads(code, From(code, cur), pc))
    && (forall i, j :: 0 <= i < j < |list| ==> list[i].addr != list[j].addr)
    && (forall e, q :: Rewritten(code, q) && Passed(code, list, cur, pc, e, q) ==> q in marked)
    && (forall q :: Rewritten(code, q) && q in marked ==> exists e :: Passed(code, list, cur, pc, e, q))
    && (forall e, f, q ::
          Rewritten(code, q) && Passed(code, list, cur, pc, e, q) && Passed(code, list, cur, pc, f, q) ==> e == f)
  }

  lemma TrailStart(code: seq<Byte>)
    ensures Trail(code, {}, [], Start, 0)
  {
    forall e, q ensures !Passed(code, [], Start, 0, e, q) {
    }
  }

  /** Going over the instruction at `pc` passes that one and nothing else. */
  lemma {:induction false} PassedOn(code: seq<Byte>, list: seq<Jump>, cur: Side, pc: nat, e: Side, q: nat)
    requires Explored(code, list, cur) && pc < |code| && Leads(code, From(code, cur), pc)
    ensures Passed(code, list, cur, Following(code, pc), e, q)
       <==> Passed(code, list, cur, pc, e, q) || (e == cur && q == pc)
  {
    hide Leads, Sequential;
    if e == cur && Leads(code, From(code, cur), q) && pc < q < Following(code, pc) {
      LeadsBetween(code, From(code, cur), pc, q);
    }
  }

  /** The walk goes over one instruction. */
  lemma {:induction false} TrailForward(code: seq<Byte>, marked: set<nat>, list: seq<Jump>, cur: Side, pc: nat,
                                        marked': set<nat>)
    requires Trail(code, marked, list, cur, pc) && pc < |code| && Sequential(code[pc]) && pc !in marked
    requires marked' == marked + if Popping(code[pc]) then {pc} else {}
    ensures Trail(code, marked', list, cur, Following(code, pc))
  {
    hide Leads, Sequential, Passed, Explored;
    var pc' := Following(code, pc);
    ExploredInside(code, list, cur);
    LeadsOn(code, From(code, cur), pc);
    forall e, q
      ensures Passed(code, list, cur, pc', e, q) <==> Passed(code, list, cur, pc, e, q) || (e == cur && q == pc)
    {
      PassedOn(code, list, cur, pc, e, q);
    }
    forall q | Rewritten(code, q) && q in marked' ensures exists e :: Passed(code, list, cur, pc', e, q) {
      if q == pc {
        assert Passed(code, list, cur, pc', cur, q);
      } else {
        var e :| Passed(code, list, cur, pc, e, q);
        assert Passed(code, list, cur, pc', e, q);
      }
    }
  }

  lemma ExploredInside(code: seq<Byte>, list: seq<Jump>, e: Side)
    requires Explored(code, list, e)
    ensures e.Taken? ==> e.p + 3 <= |code|
  {
  }

  /** The walk has come to the end of a stretch and goes on with a side it has not been on. */
  lemma {:induction false} TrailTurn(code: seq<Byte>, marked: set<nat>, list: seq<Jump>, cur: Side, pc: nat,
                                     marked': set<nat>, list': seq<Jump>, e': Side)
    requires Trail(code, marked, list, cur, pc) && pc < |code| && (code[pc] == END || IsJump(code[pc]))
    requires forall q :: Rewritten(code, q) ==> (q in marked' <==> q in marked)
    requires forall i, j :: 0 <= i < j < |list'| ==> list'[i].addr != list'[j].addr
    requires !Explored(code, list, e')
    requires forall e :: Explored(code, list', e) <==> Explored(code, list, e) || e == e'
    ensures Explored(code, list', e') && Trail(code, marked', list', e', From(code, e'))
  {
    hide Explored;
    assert Explored(code, list', e');
    ExploredInside(code, list', e');
    forall e, q | Rewritten(code, q)
      ensures Passed(code, list', e', From(code, e'), e, q) <==> Passed(code, list, cur, pc, e, q)
    {
      TurnPasses(code, list, cur, pc, list', e', e, q);
    }
    hide Leads, Passed;
    forall q | Rewritten(code, q) && q in marked' ensures exists e :: Passed(code, list', e', From(code, e'), e, q) {
      var e :| Passed(code, list, cur, pc, e, q);
      assert Passed(code, list', e', From(code, e'), e, q);
    }
  }

  lemma {:induction false} TurnPasses(code: seq<Byte>, list: seq<Jump>, cur: Side, pc: nat, list': seq<Jump>, e': Side,
                                      e: Side, q: nat)
    requires Explored(code, list, cur) && pc < |code| && Leads(code, From(code, cur), pc)
    requires code[pc] == END || IsJump(code[pc])
    requires !Explored(code, list, e') && Explored(code, list', e') && Rewritten(code, q)
    requires Explored(code, list', e) <==> Explored(code, list, e) || e == e'
    ensures Passed(code, list', e', From(code, e'), e, q) <==> Passed(code, list, cur, pc, e, q)
  {
    hide Leads, Explored;
    ExploredInside(code, list', e');
    ExploredInside(code, list, cur);
    if e == e' && Leads(code, From(code, e'), q) {
      LeadsAhead(code, From(code, e'), q);
    }
    if e == cur && Leads(code, From(code, cur), q) && q >= pc {
      StretchEnds(code, From(code, cur), pc, q);
    }
  }

  /** A stretch ends at an end or a jump. */
  lemma {:induction false} StretchEnds(code: seq<Byte>, d: nat, pc: nat, q: nat)
    requires Leads(code, d, pc) && Leads(code, d, q) && pc <= q && pc < |code|
    requires code[pc] == END || IsJump(code[pc])
    ensures q == pc && !Rewritten(code, q)
  {
    if pc < q {
      LeadsBetween(code, d, pc, q);
    }
  }

  /** A jump listed for the first time: its target side is new. */
  lemma {:induction false} ExploredPush(code: seq<Byte>, list: seq<Jump>, p: nat, e: Side)
    requires p + 3 <= |code| && IsJump(code[p]) && !Listed(list, p + 1)
    ensures var list' := [Jump(p + 1, code[p] == GOTO)] + list;
            Explored(code, list', e) <==> Explored(code, list, e) || e == Taken(p)
    ensures !Explored(code, list, Taken(p))
  {
    var first := Jump(p + 1, code[p] == GOTO);
    var list' := [first] + list;
    assert forall x :: x in list' <==> x == first || x in list;
  }

  /** An entry done: the side behind the if_goto is new. */
  lemma {:induction false} ExploredDone(code: seq<Byte>, list: seq<Jump>, k: nat, e: Side)
    requires k < |list| && !list[k].done && list[k].addr > 0 && list[k].addr + 2 <= |code| && code[list[k].addr - 1] == IF_GOTO
    requires forall i, j :: 0 <= i < j < |list| ==> list[i].addr != list[j].addr
    ensures var list' := list[k := Jump(list[k].addr, true)];
            Explored(code, list', e) <==> Explored(code, list, e) || e == Past(list[k].addr - 1)
    ensures !Explored(code, list, Past(list[k].addr - 1))
  {
    var a := list[k].addr;
    var list' := list[k := Jump(a, true)];
    DoneMembers(list, k, Jump(a, true));
    if !e.Start? {
      DoneMembers(list, k, Jump(e.p + 1, true));
      DoneMembers(list, k, Jump(e.p + 1, false));
    }
  }

  lemma {:induction false} DoneMembers(list: seq<Jump>, k: nat, x: Jump)
    requires k < |list| && !list[k].done
    requires forall i, j :: 0 <= i < j < |list| ==> list[i].addr != list[j].addr
    ensures var list' := list[k := Jump(list[k].addr, true)];
            x in list' <==> x == Jump(list[k].addr, true) || (x in list && x != list[k])
    ensures Jump(list[k].addr, true) !in list
  {
    var list' := list[k := Jump(list[k].addr, true)];
    if x in list' {
      var i :| 0 <= i < |list| && list'[i] == x;
      assert i != k ==> list[i] == x;
    }
    if x in list && x != list[k] {
      var i :| 0 <= i < |list| && list[i] == x;
      assert list'[i] == x;
    }
    assert list'[k] in list';
  }

  lemma TrailPush(code: seq<Byte>, marked: set<nat>, list: seq<Jump>, cur: Side, p: nat, marked': set<nat>)
    requires Trail(code, marked, list, cur, p) && p + 3 <= |code| && IsJump(code[p]) && !Listed(list, p + 1)
    requires marked' == marked || (code[p] == IF_GOTO && marked' == marked + {p})
    ensures Trail(code, marked', [Jump(p + 1, code[p] == GOTO)] + list, Taken(p), Word(code, p + 1))
  {
    hide Explored, Leads, Passed, Trail;
    var list' := [Jump(p + 1, code[p] == GOTO)] + list;
    TrailDistinct(code, marked, list, cur, p);
    NotListed(list, p + 1);
    forall e ensures Explored(code, list', e) <==> Explored(code, list, e) || e == Taken(p) {
      ExploredPush(code, list, p, e);
    }
    ExploredPush(code, list, p, Taken(p));
    TrailTurn(code, marked, list, cur, p, marked', list', Taken(p));
  }

  lemma TrailDistinct(code: seq<Byte>, marked: set<nat>, list: seq<Jump>, cur: Side, pc: nat)
    requires Trail(code, marked, list, cur, pc)
    ensures forall i, j :: 0 <= i < j < |list| ==> list[i].addr != list[j].addr
  {
  }

  lemma NotListed(list: seq<Jump>, addr: nat)
    requires !Listed(list, addr)
    ensures forall i :: 0 <= i < |list| ==> list[i].addr != addr
  {
    forall i | 0 <= i < |list| ensures list[i].addr != addr {
      assert list[i] in list && list[i] == Jump(list[i].addr, list[i].done);
    }
  }

  lemma TrailFall(code: seq<Byte>, marked: set<nat>, list: seq<Jump>, cur: Side, pc: nat, k: nat, marked': set<nat>)
    requires marked' == marked || (pc < |code| && code[pc] == IF_GOTO && marked' == marked + {pc})
    requires Trail(code, marked, list, cur, pc) && pc < |code| && (code[pc] == END || IsJump(code[pc]))
    requires k < |list| && !list[k].done && list[k].addr > 0 && list[k].addr + 2 <= |code| && code[list[k].addr - 1] == IF_GOTO
    ensures Trail(code, marked', list[k := Jump(list[k].addr, true)], Past(list[k].addr - 1), list[k].addr + 2)
  {
    hide Explored, Leads, Passed, Trail;
    var list', e' := list[k := Jump(list[k].addr, true)], Past(list[k].addr - 1);
    TrailDistinct(code, marked, list, cur, pc);
    forall e ensures Explored(code, list', e) <==> Explored(code, list, e) || e == e' {
      ExploredDone(code, list, k, e);
    }
    ExploredDone(code, list, k, e');
    TrailTurn(code, marked, list, cur, pc, marked', list', e');
  }

  /** Marking an if_goto is no matter. */
  lemma {:induction false} TrailMarked(code: seq<Byte>, marked: set<nat>, list: seq<Jump>, cur: Side, pc: nat, p: nat)
    requires Trail(code, marked, list, cur, pc) && p < |code| && code[p] == IF_GOTO
    ensures Trail(code, marked + {p}, list, cur, pc)
  {
    hide Passed, Explored, Leads;
  }

  /** What the walk does at a jump: one not listed is listed and its target is next; one listed has its
      fall-through walked next or, if that is done, nothing. */
  ghost predicate Visited(list: seq<Jump>, pc: nat, always: bool, out: bool, list': seq<Jump>, pc': nat) {
    if out then list' == list && Jump(pc, true) in list
    else
      || (!Listed(list, pc) && list' == [Jump(pc, always)] + list)
      || (exists k :: 0 <= k < |list| && list[k] == Jump(pc, false) && list' == list[k := Jump(pc, true)] && pc' == pc + 2)
  }

  /** The entries of the list are jumps inside the code, a goto's always done. */
  predicate ListOk(code: seq<Byte>, list: seq<Jump>) {
    forall x :: x in list ==>
      x.addr > 0 && x.addr + 2 <= |code| && IsJump(code[x.addr - 1]) && (code[x.addr - 1] == GOTO ==> x.done)
  }

  /** The stretch ends at a jump. */
  lemma {:induction false} TrailVisit(code: seq<Byte>, marked: set<nat>, list: seq<Jump>, cur: Side, p: nat,
                                      marked': set<nat>, out: bool, list': seq<Jump>, pc': nat) returns (cur': Side)
    requires Trail(code, marked, list, cur, p) && p + 3 <= |code| && IsJump(code[p]) && ListOk(code, list)
    requires marked' == marked + if code[p] == GOTO then {} else {p}
    requires Visited(list, p + 1, code[p] == GOTO, out, list', pc')
    requires !out && !Listed(list, p + 1) ==> pc' == Word(code, p + 1)
    ensures Trail(code, marked', list', cur', if out then p else pc')
  {
    hide Trail, Listed;
    cur' := cur;
    assert code[p] == GOTO ==> marked' == marked;
    if out {
      if code[p] == IF_GOTO {
        TrailMarked(code, marked, list, cur, p, p);
      }
    } else if !Listed(list, p + 1) {
      NotListed(list, p + 1);
      cur' := Taken(p);
      TrailPush(code, marked, list, cur, p, marked');
    } else {
      var k :| 0 <= k < |list| && list[k] == Jump(p + 1, false) && list' == list[k := Jump(p + 1, true)] && pc' == p + 3;
      assert list[k] in list;
      cur' := Past(p);
      TrailFall(code, marked, list, cur, p, k, marked');
    }
  }

  // ----- inside code that is accepted -----

  /** The walk is where control can come. */
  ghost predicate Within(code: seq<Byte>, vars: seq<Var>, list: seq<Jump>, reach: set<nat>, pc: nat) {
    && Reaches(code, vars, reach) && pc in reach
    && forall x :: x in list ==> x.addr > 0 && x.addr - 1 in reach && x.addr + 2 <= |code| && IsJump(code[x.addr - 1])
  }

  lemma WithinStart(code: seq<Byte>, vars: seq<Var>) returns (reach: set<nat>)
    requires Loops(code, vars)
    ensures Within(code, vars, [], reach, 0)
  {
    reach :| Reaches(code, vars, reach);
  }

  lemma WithinHere(code: seq<Byte>, vars: seq<Var>, list: seq<Jump>, reach: set<nat>, pc: nat)
    requires Within(code, vars, list, reach, pc)
    ensures pc < |code| && Fine(code, vars, pc)
  {
  }

  lemma WithinNext(code: seq<Byte>, vars: seq<Var>, list: seq<Jump>, reach: set<nat>, pc: nat)
    requires Within(code, vars, list, reach, pc) && pc < |code| && Sequential(code[pc])
    ensures Within(code, vars, list, reach, Following(code, pc))
  {
    assert Following(code, pc) in Successors(code, pc);
  }

  lemma WithinFall(code: seq<Byte>, vars: seq<Var>, list: seq<Jump>, reach: set<nat>, pc: nat, k: nat)
    requires Within(code, vars, list, reach, pc) && k < |list| && list[k].addr > 0 && list[k].addr + 2 <= |code|
    requires code[list[k].addr - 1] == IF_GOTO
    ensures Within(code, vars, list[k := Jump(list[k].addr, true)], reach, list[k].addr + 2)
  {
    hide Reaches;
    var p := list[k].addr - 1;
    assert list[k] in list && p in reach;
    FallWithin(code, vars, reach, p);
    forall x | x in list[k := Jump(p + 1, true)]
      ensures x.addr > 0 && x.addr - 1 in reach && x.addr + 2 <= |code| && IsJump(code[x.addr - 1])
    {
      assert x in list || x == Jump(p + 1, true);
    }
  }

  lemma FallWithin(code: seq<Byte>, vars: seq<Var>, reach: set<nat>, p: nat)
    requires Reaches(code, vars, reach) && p in reach && p + 3 <= |code| && code[p] == IF_GOTO
    ensures p + 3 in reach
  {
    hide Apart, Fine;
    assert p + 3 in Successors(code, p);
  }

  lemma WithinVisit(code: seq<Byte>, vars: seq<Var>, list: seq<Jump>, reach: set<nat>, p: nat, out: bool, list': seq<Jump>,
                    pc': nat)
    requires Within(code, vars, list, reach, p) && p + 3 <= |code| && IsJump(code[p]) && ListOk(code, list)
    requires Visited(list, p + 1, code[p] == GOTO, out, list', pc')
    requires !out && !Listed(list, p + 1) ==> pc' == Word(code, p + 1)
    ensures Within(code, vars, list', reach, if out then p else pc')
  {
    hide Listed, Reaches;
    if !out {
      if Listed(list, p + 1) {
        var k :| 0 <= k < |list| && list[k] == Jump(p + 1, false) && list' == list[k := Jump(p + 1, true)] && pc' == p + 3;
        assert list[k] in list;
        WithinFall(code, vars, list, reach, p, k);
      } else {
        NotListed(list, p + 1);
        TargetWithin(code, vars, reach, p);
        assert forall x :: x in list' <==> x == Jump(p + 1, code[p] == GOTO) || x in list;
      }
    }
  }

  lemma TargetWithin(code: seq<Byte>, vars: seq<Var>, reach: set<nat>, p: nat)
    requires Reaches(code, vars, reach) && p in reach && p + 3 <= |code| && IsJump(code[p])
    ensures Word(code, p + 1) in reach
  {
    hide Apart, Fine;
    assert Word(code, p + 1) in Successors(code, p);
  }

  // ----- the verdict -----

  /** All that was walked, with nothing left to do: the sides do not meet. */
  lemma {:induction false} TrailDone(code: seq<Byte>, marked: set<nat>, list: seq<Jump>, cur: Side, pc: nat, walked: set<nat>)
    requires Trail(code, marked, list, cur, pc) && pc < |code| && (code[pc] == END || IsJump(code[pc]))
    requires forall x :: x in list ==> x.done
    requires forall p :: p in walked && p + 3 <= |code| && IsJump(code[p]) ==> Listed(list, p + 1)
    ensures Apart(code, walked)
  {
    hide Leads;
    forall e, q: nat | Meet(code, walked, e, q) && Rewritten(code, q)
      ensures Passed(code, list, cur, pc, e, q)
    {
      assert !e.Start? ==> Listed(list, e.p + 1);
      if e == cur && q >= pc {
        StretchEnds(code, From(code, cur), pc, q);
      }
    }
  }

  /** Inside code whose sides do not meet, the walk never comes to a popping instruction it has marked. */
  lemma {:induction false} TrailMeets(code: seq<Byte>, marked: set<nat>, list: seq<Jump>, cur: Side, pc: nat, reach: set<nat>)
    requires Trail(code, marked, list, cur, pc) && pc < |code| && Apart(code, reach)
    requires forall x :: x in list ==> x.addr > 0 && x.addr - 1 in reach && x.addr + 2 <= |code| && IsJump(code[x.addr - 1])
    ensures !(Rewritten(code, pc) && pc in marked)
  {
    hide Leads;
    if Rewritten(code, pc) && pc in marked {
      var e :| Passed(code, list, cur, pc, e, pc);
      MeetsOnce(code, list, cur, pc, reach, e);
    }
  }

  lemma MeetsOnce(code: seq<Byte>, list: seq<Jump>, cur: Side, pc: nat, reach: set<nat>, e: Side)
    requires Apart(code, reach) && Rewritten(code, pc)
    requires Explored(code, list, cur) && Leads(code, From(code, cur), pc)
    requires Explored(code, list, e) && Leads(code, From(code, e), pc)
    requires forall x :: x in list ==> x.addr > 0 && x.addr - 1 in reach && x.addr + 2 <= |code| && IsJump(code[x.addr - 1])
    ensures e == cur
  {
    hide Leads;
    ExploredSide(code, list, reach, e);
    ExploredSide(code, list, reach, cur);
    assert Meet(code, reach, e, pc) && Meet(code, reach, cur, pc);
  }

  lemma ExploredSide(code: seq<Byte>, list: seq<Jump>, reach: set<nat>, e: Side)
    requires Explored(code, list, e)
    requires forall x :: x in list ==> x.addr > 0 && x.addr - 1 in reach && x.addr + 2 <= |code| && IsJump(code[x.addr - 1])
    ensures SideOf(code, reach, e)
  {
    if e.Taken? {
      assert Jump(e.p + 1, false) in list || Jump(e.p + 1, true) in list;
    }
  }

  /** A stretch stays inside. */
  lemma MeetInside(code: seq<Byte>, reach: set<nat>, e: Side, q: nat)
    requires Closed(code, reach) && Meet(code, reach, e, q)
    ensures q in reach
  {
    if !e.Start? {
      assert From(code, e) in Successors(code, e.p);
    }
    LeadsInside(code, reach, From(code, e), q);
  }

  lemma {:induction false} LeadsInside(code: seq<Byte>, reach: set<nat>, d: nat, q: nat)
    requires Closed(code, reach) && d in reach && Leads(code, d, q)
    ensures q in reach
    decreases |code| - d
  {
    if d != q {
      assert Following(code, d) in Successors(code, d);
      LeadsInside(code, reach, Following(code, d), q);
    }
  }

  // ----- two programs -----

  /** const8 1; if_goto 8; goto 0; 8: end. */
  const WHILE: seq<Byte> := [0x22, 1, 0x20, 0, 8, 0x21, 0, 0, 0x27]

  /** const8 1; if_goto 9; const8 2; dup; dup; 9: pop; goto 0. */
  const JOIN: seq<Byte> := [0x22, 1, 0x20, 0, 9, 0x22, 2, 0x28, 0x28, 0x29, 0x21, 0, 0]

  /** Where control goes next. */
  lemma WhileFlow(p: nat)
    requires p in {0, 2, 5, 8}
    ensures Following(WHILE, p) <= |WHILE|
    ensures Successors(WHILE, p) == if p == 0 then {2} else if p == 2 then {8, 5} else if p == 5 then {0} else {}
  {
    assert |WHILE| == 9 && WHILE[p] == if p == 0 then 0x22 else if p == 2 then 0x20 else if p == 5 then 0x21 else 0x27;
  }

  lemma WhileIsAccepted(vars: seq<Var>)
    ensures Loops(WHILE, vars)
  {
    hide Successors, Following, Leads;
    var reach := {0, 2, 5, 8};
    forall p | p in reach
      ensures p < |WHILE| && Following(WHILE, p) <= |WHILE| && Successors(WHILE, p) <= reach && Fine(WHILE, vars, p)
    {
      WhileFlow(p);
    }
    assert Closed(WHILE, reach);
    forall e, q: nat ensures !(Meet(WHILE, reach, e, q) && Rewritten(WHILE, q)) {
      if Meet(WHILE, reach, e, q) {
        MeetInside(WHILE, reach, e, q);
      }
    }
    assert Reaches(WHILE, vars, reach);
  }

  lemma JoinFlow(p: nat)
    requires p in {0, 2, 5, 7, 8, 9, 10}
    ensures Following(JOIN, p) <= |JOIN|
    ensures Successors(JOIN, p)
         == if p == 0 then {2} else if p == 2 then {9, 5} else if p == 5 then {7} else if p == 10 then {0} else {p + 1}
  {
    assert |JOIN| == 13
        && JOIN[p] == if p == 0 || p == 5 then 0x22 else if p == 2 then 0x20 else if p == 9 then 0x29
                      else if p == 10 then 0x21 else 0x28;
  }

  lemma JoinLeads()
    ensures Leads(JOIN, 5, 9) && Leads(JOIN, 9, 9)
  {
    assert |JOIN| == 13 && JOIN[5] == 0x22 && JOIN[7] == 0x28 && JOIN[8] == 0x28;
    assert Leads(JOIN, 8, 9) && Leads(JOIN, 7, 9);
  }

  /** Both sides of the if_goto come to the pop, which the walk of the second does not know any more: refused,
      though control stays inside and every instruction is fine. */
  lemma JoinIsRefused(vars: seq<Var>)
    ensures !Loops(JOIN, vars)
    ensures var reach := {0, 2, 5, 7, 8, 9, 10}; Closed(JOIN, reach) && forall p :: p in reach ==> Fine(JOIN, vars, p)
  {
    hide Successors, Following, Leads;
    var inside := {0, 2, 5, 7, 8, 9, 10};
    forall p | p in inside
      ensures p < |JOIN| && Following(JOIN, p) <= |JOIN| && Successors(JOIN, p) <= inside && Fine(JOIN, vars, p)
    {
      JoinFlow(p);
    }
    JoinLeads();
    JoinFlow(0);
    forall reach: set<nat> ensures !Reaches(JOIN, vars, reach) {
      if Closed(JOIN, reach) {
        assert 2 in Successors(JOIN, 0);
        assert Meet(JOIN, reach, Taken(2), 9) && Meet(JOIN, reach, Past(2), 9) && Rewritten(JOIN, 9);
      }
    }
  }
}
