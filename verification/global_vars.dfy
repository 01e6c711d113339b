/** Turning module-scope variables into function state: Private globals
    become locals of the entry function, and every other function receives
    the globals it (or anything it calls) touches as extra parameters. The
    extraction is a memoised depth-first walk of the call graph followed by
    the addition of one fresh parameter per extracted global. */
module GlobalVars {
  import opened Ir
  import opened Naming

  /** localize_global_variables: every Private global, in declaration order,
      is appended to the entry function's locals. The global list itself is
      left as it is. */
  function LocalizeGlobalVariables(a: Arena): (r: Arena)
    requires a.entryPoint in a.funcs
    requires forall g :: g in a.globalVariables ==> g in a.vars
    ensures r.entryPoint in r.funcs && r.funcs.Keys == a.funcs.Keys
    ensures var old_ := a.funcs[a.entryPoint].locals;
            var new_ := r.funcs[a.entryPoint].locals;
            && |new_| >= |old_| && new_[..|old_|] == old_
            && (forall x :: x in new_[|old_|..] <==> x in a.globalVariables && a.vars[x].storage == Private)
            && |new_| - |old_| <= |a.globalVariables|
            && new_[|old_|..] == PrivateGlobals(a, a.globalVariables)
    ensures r.funcs[a.entryPoint] == a.funcs[a.entryPoint].(locals := r.funcs[a.entryPoint].locals)
    ensures forall f :: f in a.funcs && f != a.entryPoint ==> r.funcs[f] == a.funcs[f]
    ensures r == a.(funcs := r.funcs)
  {
    var entry := a.funcs[a.entryPoint];
    var moved := PrivateGlobals(a, a.globalVariables);
    a.(funcs := a.funcs[a.entryPoint := entry.(locals := entry.locals + moved)])
  }

  /** The Private variables among gs, in order. */
  function PrivateGlobals(a: Arena, gs: seq<Id>): (r: seq<Id>)
    requires forall g :: g in gs ==> g in a.vars
    ensures forall x :: x in r <==> x in gs && a.vars[x].storage == Private
    ensures |r| <= |gs|
  {
    if gs == [] then []
    else (if a.vars[gs[0]].storage == Private then [gs[0]] else []) + PrivateGlobals(a, gs[1..])
  }

  /** Each Private variable is selected as often as it occurs in gs, every
      other ID not at all. */
  lemma {:induction false} PrivateGlobalsCounts(a: Arena, gs: seq<Id>)
    requires forall g :: g in gs ==> g in a.vars
    ensures forall x :: multiset(PrivateGlobals(a, gs))[x] == if x in gs && a.vars[x].storage == Private then multiset(gs)[x] else 0
    decreases |gs|
  {
    if gs != [] {
      var head := if a.vars[gs[0]].storage == Private then [gs[0]] else [];
      var rest := PrivateGlobals(a, gs[1..]);
      PrivateGlobalsCounts(a, gs[1..]);
      assert PrivateGlobals(a, gs) == head + rest;
      assert gs == [gs[0]] + gs[1..];
      assert multiset(gs) == multiset([gs[0]]) + multiset(gs[1..]);
      forall x ensures multiset(PrivateGlobals(a, gs))[x] == if x in gs && a.vars[x].storage == Private then multiset(gs)[x] else 0 {
        assert multiset(PrivateGlobals(a, gs))[x] == multiset(head)[x] + multiset(rest)[x];
        if x !in gs[1..] {
          assert multiset(gs[1..])[x] == 0;
        }
      }
    }
  }

  /** The selection keeps list order: selecting from a concatenation is
      concatenating the selections. */
  lemma {:induction false} PrivateGlobalsAppend(a: Arena, gs1: seq<Id>, gs2: seq<Id>)
    requires forall g :: g in gs1 ==> g in a.vars
    requires forall g :: g in gs2 ==> g in a.vars
    ensures PrivateGlobals(a, gs1 + gs2) == PrivateGlobals(a, gs1) + PrivateGlobals(a, gs2)
    decreases |gs1|
  {
    if gs1 != [] {
      var head := if a.vars[gs1[0]].storage == Private then [gs1[0]] else [];
      assert (gs1 + gs2)[0] == gs1[0];
      assert (gs1 + gs2)[1..] == gs1[1..] + gs2;
      PrivateGlobalsAppend(a, gs1[1..], gs2);
      assert PrivateGlobals(a, gs1 + gs2) == head + PrivateGlobals(a, gs1[1..] + gs2);
      assert PrivateGlobals(a, gs1) == head + PrivateGlobals(a, gs1[1..]);
    } else {
      assert gs1 + gs2 == gs2;
    }
  }

  /** The storage classes whose variables extract_global_variables_from_functions
      collects up front: stage inputs and the uniform-like classes. */
  predicate IsInterfaceStorage(s: StorageClass) {
    s == Input || s == Uniform || s == UniformConstant || s == PushConstant
  }

  /** global_var_ids. */
  function GlobalVarIds(a: Arena): (r: set<Id>)
    ensures forall v :: v in r <==> v in a.vars && IsInterfaceStorage(a.vars[v].storage)
  {
    set v | v in a.vars && IsInterfaceStorage(a.vars[v].storage)
  }

  /** The IDs a load or access chain may extract: the collected IDs and the
      front end's global list. */
  function Extractable(a: Arena, gids: set<Id>): set<Id> {
    gids + set g | g in a.globalVariables
  }

  /** What one Load or AccessChain base contributes. */
  function Hit(a: Arena, gids: set<Id>, base: Id): (r: set<Id>)
    ensures r <= Extractable(a, gids)
    ensures base in Extractable(a, gids) ==> r == {base}
    ensures base !in Extractable(a, gids) ==> r == {}
  {
    if base in gids || base in a.globalVariables then {base} else {}
  }

  /** Every block and every callee referenced by a function resolves. */
  predicate Walkable(a: Arena) {
    BlocksResolve(a) && forall f :: f in a.funcs ==> CallsResolve(a, FuncOps(a, f))
  }

  /** State of the walk: processed_func_ids, function_global_vars (only for
      completed functions), and the order in which functions completed. */
  datatype Walk = Walk(processed: set<Id>, memo: map<Id, set<Id>>, finished: seq<Id>)

  const EmptyWalk := Walk({}, map[], [])

  /** Every call in f's body targets a processed function. */
  predicate CalleesIn(a: Arena, f: Id, done: set<Id>)
    requires Walkable(a) && f in a.funcs
  {
    var ops := FuncOps(a, f);
    forall i :: 0 <= i < |ops| && ops[i].FunctionCall? ==> ops[i].callee in done
  }

  ghost predicate WalkInv(a: Arena, gids: set<Id>, w: Walk)
    requires Walkable(a)
  {
    && w.processed <= a.funcs.Keys
    && w.memo.Keys <= w.processed
    && NoDuplicates(w.finished)
    && Elements(w.finished) == w.memo.Keys
    && (forall g :: g in w.memo ==> w.memo[g] <= Extractable(a, gids))
    && (forall g :: g in w.memo ==> CalleesIn(a, g, w.processed))
  }

  /** How the walk may change: processed grows, completed entries stay, the
      set of functions in progress is restored, completion order extends. */
  ghost predicate Grows(w: Walk, w': Walk) {
    && w.processed <= w'.processed
    && (forall g :: g in w.memo ==> g in w'.memo && w'.memo[g] == w.memo[g])
    && w'.processed - w'.memo.Keys == w.processed - w.memo.Keys
    && |w.finished| <= |w'.finished| && w'.finished[..|w.finished|] == w.finished
  }

  lemma GrowsTransitive(w1: Walk, w2: Walk, w3: Walk)
    requires Grows(w1, w2) && Grows(w2, w3)
    ensures Grows(w1, w3)
  {
    assert w3.finished[..|w1.finished|] == w3.finished[..|w2.finished|][..|w1.finished|];
  }

  lemma RemainingShrinks(all: set<Id>, done: set<Id>, done': set<Id>)
    requires done <= done'
    ensures |all - done'| <= |all - done|
  {
    assert all - done' <= all - done;
    SubsetCard(all - done', all - done);
  }

  lemma {:induction false} SubsetCard<T>(s: set<T>, t: set<T>)
    requires s <= t
    ensures |s| <= |t|
    decreases |t|
  {
    if s != {} {
      var x :| x in s;
      SubsetCard(s - {x}, t - {x});
    }
  }

  /** Records f as completed with the given set. */
  function Complete(w: Walk, f: Id, found: set<Id>): Walk {
    Walk(w.processed, w.memo[f := found], w.finished + [f])
  }

  lemma StartPreserves(a: Arena, gids: set<Id>, w: Walk, f: Id)
    requires Walkable(a) && f in a.funcs && WalkInv(a, gids, w) && f !in w.processed
    ensures WalkInv(a, gids, w.(processed := w.processed + {f}))
  {
    var w1 := w.(processed := w.processed + {f});
    forall g | g in w1.memo
      ensures CalleesIn(a, g, w1.processed)
    {
      assert CalleesIn(a, g, w.processed);
    }
  }

  lemma AppendFresh<T>(q: seq<T>, x: T)
    requires NoDuplicates(q) && x !in Elements(q)
    ensures NoDuplicates(q + [x]) && Elements(q + [x]) == Elements(q) + {x}
  {
    assert forall i :: 0 <= i < |q| ==> (q + [x])[i] == q[i] && q[i] in Elements(q);
  }

  lemma CompletePreserves(a: Arena, gids: set<Id>, w: Walk, f: Id, w2: Walk, found: set<Id>)
    requires Walkable(a) && f in a.funcs && WalkInv(a, gids, w) && f !in w.processed
    requires WalkInv(a, gids, w2) && Grows(w.(processed := w.processed + {f}), w2)
    requires found <= Extractable(a, gids)
    requires CalleesIn(a, f, w2.processed)
    ensures WalkInv(a, gids, Complete(w2, f, found)) && Grows(w, Complete(w2, f, found))
  {
    var w1 := w.(processed := w.processed + {f});
    assert f in w2.processed - w2.memo.Keys by {
      assert f in w1.processed - w1.memo.Keys;
    }
    AppendFresh(w2.finished, f);
    CompleteInv(a, gids, f, w2, found);
    CompleteGrows(w, f, w2, found);
  }

  lemma CompleteInv(a: Arena, gids: set<Id>, f: Id, w2: Walk, found: set<Id>)
    requires Walkable(a) && f in a.funcs && WalkInv(a, gids, w2) && f in w2.processed
    requires NoDuplicates(w2.finished + [f]) && Elements(w2.finished + [f]) == Elements(w2.finished) + {f}
    requires found <= Extractable(a, gids)
    requires CalleesIn(a, f, w2.processed)
    ensures WalkInv(a, gids, Complete(w2, f, found))
  {
    var w3 := Complete(w2, f, found);
    forall g | g in w3.memo
      ensures CalleesIn(a, g, w3.processed)
    {
      if g != f {
        assert CalleesIn(a, g, w2.processed);
      }
    }
  }

  lemma CompleteGrows(w: Walk, f: Id, w2: Walk, found: set<Id>)
    requires f !in w.processed && w.memo.Keys <= w.processed
    requires Grows(w.(processed := w.processed + {f}), w2)
    requires f in w2.processed - w2.memo.Keys
    ensures Grows(w, Complete(w2, f, found))
  {
    var w3 := Complete(w2, f, found);
    assert w3.finished[..|w.finished|] == w2.finished[..|w.finished|];
    assert w3.memo.Keys == w2.memo.Keys + {f};
    assert w2.processed - w2.memo.Keys == (w.processed + {f}) - w.memo.Keys;
    forall x
      ensures x in w3.processed - w3.memo.Keys <==> x in w.processed - w.memo.Keys
    {
      if x == f {
        assert x !in w.processed;
      } else {
        assert x in w3.processed - w3.memo.Keys <==> x in w2.processed - w2.memo.Keys;
      }
    }
  }

  /** extract_global_variables_from_function: the globals f needs, and the
      walk state after f (and any callee not seen before) was processed. A
      function already processed answers from the memo, or with nothing when
      it is still in progress, which is how a recursive call is cut off. */
  function ExtractFrom(a: Arena, gids: set<Id>, f: Id, w: Walk): (r: (set<Id>, Walk))
    requires Walkable(a) && f in a.funcs && WalkInv(a, gids, w)
    ensures WalkInv(a, gids, r.1) && Grows(w, r.1)
    ensures f in r.1.processed
    ensures r.0 <= Extractable(a, gids)
    ensures f in w.processed ==> r.1 == w && r.0 == (if f in w.memo then w.memo[f] else {})
    ensures f !in w.processed ==> f in r.1.memo && r.1.memo[f] == r.0 && r.1.finished[|r.1.finished| - 1] == f
    decreases |a.funcs.Keys - w.processed|, 0, 0
  {
    if f in w.processed then
      (if f in w.memo then w.memo[f] else {}, w)
    else
      var w1 := w.(processed := w.processed + {f});
      assert a.funcs.Keys - w1.processed == (a.funcs.Keys - w.processed) - {f};
      StartPreserves(a, gids, w, f);
      var scanned := Scan(a, gids, FuncOps(a, f), {}, w1);
      CompletePreserves(a, gids, w, f, scanned.1, scanned.0);
      (scanned.0, Complete(scanned.1, f, scanned.0))
  }

  /** The walk over the operation stream of one function: loads and access
      chains of extractable IDs are collected, calls are walked and their
      sets added. */
  function Scan(a: Arena, gids: set<Id>, ops: seq<Instr>, acc: set<Id>, w: Walk): (r: (set<Id>, Walk))
    requires Walkable(a) && CallsResolve(a, ops) && WalkInv(a, gids, w)
    requires acc <= Extractable(a, gids)
    ensures WalkInv(a, gids, r.1) && Grows(w, r.1)
    ensures acc <= r.0 <= Extractable(a, gids)
    ensures forall i :: 0 <= i < |ops| && ops[i].FunctionCall? ==> ops[i].callee in r.1.processed
    decreases |a.funcs.Keys - w.processed|, 1, |ops|
  {
    if ops == [] then (acc, w)
    else
      CallsResolveTail(a, ops);
      var r := (
        match ops[0]
        case Load(p) => Scan(a, gids, ops[1..], acc + Hit(a, gids, p), w)
        case AccessChain(b) => Scan(a, gids, ops[1..], acc + Hit(a, gids, b), w)
        case FunctionCall(c) =>
          var inner := ExtractFrom(a, gids, c, w);
          RemainingShrinks(a.funcs.Keys, w.processed, inner.1.processed);
          var r := Scan(a, gids, ops[1..], acc + inner.0, inner.1);
          GrowsTransitive(w, inner.1, r.1);
          r
        case OtherOp => Scan(a, gids, ops[1..], acc, w));
      CalleesShift(ops, r.1.processed);
      r
  }

  lemma CallsResolveTail(a: Arena, ops: seq<Instr>)
    requires ops != [] && CallsResolve(a, ops)
    ensures CallsResolve(a, ops[1..])
    ensures ops[0].FunctionCall? ==> ops[0].callee in a.funcs
  {
    assert forall i :: 0 <= i < |ops| - 1 ==> ops[1..][i] == ops[i + 1];
  }

  lemma CalleesShift(ops: seq<Instr>, done: set<Id>)
    requires ops != []
    requires ops[0].FunctionCall? ==> ops[0].callee in done
    requires forall i :: 0 <= i < |ops[1..]| && ops[1..][i].FunctionCall? ==> ops[1..][i].callee in done
    ensures forall i :: 0 <= i < |ops| && ops[i].FunctionCall? ==> ops[i].callee in done
  {
    forall i | 0 < i < |ops| && ops[i].FunctionCall?
      ensures ops[i].callee in done
    {
      assert ops[i] == ops[1..][i - 1];
    }
  }

  /** A rank on the functions under which every call goes to a lower rank:
      the call graph is acyclic. */
  predicate RankedCalls(a: Arena, rank: map<Id, nat>)
    requires Walkable(a)
  {
    && a.funcs.Keys <= rank.Keys
    && forall f :: f in a.funcs ==> CallsBelow(a, rank, FuncOps(a, f), rank[f])
  }

  predicate CallsBelow(a: Arena, rank: map<Id, nat>, ops: seq<Instr>, bound: nat) {
    forall i :: 0 <= i < |ops| && ops[i].FunctionCall? ==> ops[i].callee in rank && rank[ops[i].callee] < bound
  }

  /** Reference definition for an acyclic call graph: the globals a function
      needs are the extractable IDs it loads or accesses itself, together
      with those its callees need. */
  function Needs(a: Arena, gids: set<Id>, rank: map<Id, nat>, f: Id): set<Id>
    requires Walkable(a) && RankedCalls(a, rank) && f in a.funcs
    decreases rank[f], 1, 0
  {
    NeedsOps(a, gids, rank, FuncOps(a, f), rank[f])
  }

  function NeedsOps(a: Arena, gids: set<Id>, rank: map<Id, nat>, ops: seq<Instr>, bound: nat): set<Id>
    requires Walkable(a) && RankedCalls(a, rank) && CallsResolve(a, ops) && CallsBelow(a, rank, ops, bound)
    decreases bound, 0, |ops|
  {
    if ops == [] then {}
    else
      CallsResolveTail(a, ops);
      assert CallsBelow(a, rank, ops[1..], bound) by {
        assert forall i :: 0 <= i < |ops| - 1 ==> ops[1..][i] == ops[i + 1];
      }
      var first := match ops[0]
        case Load(p) => Hit(a, gids, p)
        case AccessChain(b) => Hit(a, gids, b)
        case FunctionCall(c) => Needs(a, gids, rank, c)
        case OtherOp => {};
      first + NeedsOps(a, gids, rank, ops[1..], bound)
  }

  /** Every memo entry holds what the reference definition says. */
  ghost predicate MemoAgrees(a: Arena, gids: set<Id>, rank: map<Id, nat>, w: Walk)
    requires Walkable(a) && RankedCalls(a, rank) && w.memo.Keys <= a.funcs.Keys
  {
    forall g :: g in w.memo ==> w.memo[g] == Needs(a, gids, rank, g)
  }

  /** Every function still in progress has at least the given rank. */
  ghost predicate InProgressAbove(rank: map<Id, nat>, w: Walk, bound: nat) {
    forall p :: p in w.processed - w.memo.Keys ==> p in rank && rank[p] >= bound
  }

  /** On an acyclic call graph the walk computes the reference sets: the
      answer for f is Needs(f), and every completed function's memo entry is
      its Needs set. */
  lemma {:induction false} ExtractAgrees(a: Arena, gids: set<Id>, rank: map<Id, nat>, f: Id, w: Walk)
    requires Walkable(a) && RankedCalls(a, rank) && f in a.funcs && WalkInv(a, gids, w)
    requires MemoAgrees(a, gids, rank, w)
    requires InProgressAbove(rank, w, rank[f] + 1)
    ensures var r := ExtractFrom(a, gids, f, w);
            r.0 == Needs(a, gids, rank, f) && MemoAgrees(a, gids, rank, r.1)
    decreases rank[f], 1, 0, 0
  {
    if f !in w.processed {
      var w1 := w.(processed := w.processed + {f});
      StartPreserves(a, gids, w, f);
      assert InProgressAbove(rank, w1, rank[f]);
      ScanAgrees(a, gids, rank, FuncOps(a, f), {}, w1, rank[f]);
    }
  }

  lemma {:induction false} ScanAgrees(a: Arena, gids: set<Id>, rank: map<Id, nat>, ops: seq<Instr>, acc: set<Id>, w: Walk, bound: nat)
    requires Walkable(a) && RankedCalls(a, rank) && CallsResolve(a, ops) && WalkInv(a, gids, w)
    requires acc <= Extractable(a, gids)
    requires CallsBelow(a, rank, ops, bound)
    requires MemoAgrees(a, gids, rank, w)
    requires InProgressAbove(rank, w, bound)
    ensures var r := Scan(a, gids, ops, acc, w);
            r.0 == acc + NeedsOps(a, gids, rank, ops, bound) && MemoAgrees(a, gids, rank, r.1)
    decreases bound, 0, |ops|, 1
  {
    if ops != [] {
      CallsResolveTail(a, ops);
      assert CallsBelow(a, rank, ops[1..], bound) by {
        assert forall i :: 0 <= i < |ops| - 1 ==> ops[1..][i] == ops[i + 1];
      }
      match ops[0]
      case Load(p) =>
        assert Scan(a, gids, ops, acc, w) == Scan(a, gids, ops[1..], acc + Hit(a, gids, p), w);
        assert NeedsOps(a, gids, rank, ops, bound) == Hit(a, gids, p) + NeedsOps(a, gids, rank, ops[1..], bound);
        ScanAgrees(a, gids, rank, ops[1..], acc + Hit(a, gids, p), w, bound);
      case AccessChain(b) =>
        assert Scan(a, gids, ops, acc, w) == Scan(a, gids, ops[1..], acc + Hit(a, gids, b), w);
        assert NeedsOps(a, gids, rank, ops, bound) == Hit(a, gids, b) + NeedsOps(a, gids, rank, ops[1..], bound);
        ScanAgrees(a, gids, rank, ops[1..], acc + Hit(a, gids, b), w, bound);
      case FunctionCall(c) =>
        ScanCallAgrees(a, gids, rank, ops, acc, w, bound);
      case OtherOp =>
        assert Scan(a, gids, ops, acc, w) == Scan(a, gids, ops[1..], acc, w);
        assert NeedsOps(a, gids, rank, ops, bound) == NeedsOps(a, gids, rank, ops[1..], bound);
        ScanAgrees(a, gids, rank, ops[1..], acc, w, bound);
    }
  }

  lemma {:induction false} ScanCallAgrees(a: Arena, gids: set<Id>, rank: map<Id, nat>, ops: seq<Instr>, acc: set<Id>, w: Walk, bound: nat)
    requires Walkable(a) && RankedCalls(a, rank) && CallsResolve(a, ops) && WalkInv(a, gids, w)
    requires ops != [] && ops[0].FunctionCall?
    requires acc <= Extractable(a, gids)
    requires CallsBelow(a, rank, ops, bound)
    requires MemoAgrees(a, gids, rank, w)
    requires InProgressAbove(rank, w, bound)
    ensures var r := Scan(a, gids, ops, acc, w);
            r.0 == acc + NeedsOps(a, gids, rank, ops, bound) && MemoAgrees(a, gids, rank, r.1)
    decreases bound, 0, |ops|, 0
  {
    var c := ops[0].callee;
    CallsResolveTail(a, ops);
    assert CallsBelow(a, rank, ops[1..], bound) by {
      assert forall i :: 0 <= i < |ops| - 1 ==> ops[1..][i] == ops[i + 1];
    }
    assert rank[c] < bound;
    ExtractAgrees(a, gids, rank, c, w);
    var inner := ExtractFrom(a, gids, c, w);
    assert InProgressAbove(rank, inner.1, bound);
    ScanUnfoldCall(a, gids, ops, acc, w, inner);
    NeedsUnfoldCall(a, gids, rank, ops, bound);
    ScanAgrees(a, gids, rank, ops[1..], acc + inner.0, inner.1, bound);
  }

  lemma ScanUnfoldCall(a: Arena, gids: set<Id>, ops: seq<Instr>, acc: set<Id>, w: Walk, inner: (set<Id>, Walk))
    requires Walkable(a) && CallsResolve(a, ops) && WalkInv(a, gids, w)
    requires ops != [] && ops[0].FunctionCall? && acc <= Extractable(a, gids)
    requires ops[0].callee in a.funcs && inner == ExtractFrom(a, gids, ops[0].callee, w)
    ensures CallsResolve(a, ops[1..])
    ensures Scan(a, gids, ops, acc, w) == Scan(a, gids, ops[1..], acc + inner.0, inner.1)
  {
    CallsResolveTail(a, ops);
  }

  lemma NeedsUnfoldCall(a: Arena, gids: set<Id>, rank: map<Id, nat>, ops: seq<Instr>, bound: nat)
    requires Walkable(a) && RankedCalls(a, rank) && CallsResolve(a, ops) && CallsBelow(a, rank, ops, bound)
    requires ops != [] && ops[0].FunctionCall?
    ensures ops[0].callee in a.funcs && CallsResolve(a, ops[1..]) && CallsBelow(a, rank, ops[1..], bound)
    ensures NeedsOps(a, gids, rank, ops, bound)
            == Needs(a, gids, rank, ops[0].callee) + NeedsOps(a, gids, rank, ops[1..], bound)
  {
    CallsResolveTail(a, ops);
    assert forall i :: 0 <= i < |ops| - 1 ==> ops[1..][i] == ops[i + 1];
  }

  /** What the parameter loop of one function updates: that function's
      parameter list, the variables and the metadata table. */
  datatype ParamState = ParamState(params: seq<Parameter>, vars: map<Id, Variable>, meta: map<Id, Meta>)

  /** The validated name a global and its parameter share. */
  function ArgName(m: Meta, arg: Id, reserved: set<string>): string {
    EnsureValidName(DisplayName(m, arg), "v", reserved)
  }

  /** One iteration of the parameter loop: the global gains a Function-storage
      variable `next` appended to the parameters; the global is renamed to
      the name `nameOf` gives it and the new variable takes the same name and
      the global's qualified alias. The loop's lemmas hold for any naming
      rule; the backend's is ArgName. */
  function AddArg(st: ParamState, arg: Id, next: Id, nameOf: (Meta, Id) -> string): ParamState
    requires arg in st.vars
  {
    var typeId := st.vars[arg].basetype;
    var name := nameOf(MetaAt(st.meta, arg), arg);
    var global := MetaAt(st.meta, arg);
    var param := MetaAt(st.meta, next);
    var renamed := st.meta[arg := global.(decoration := global.decoration.(alias := name))];
    ParamState(st.params + [Parameter(typeId, next)],
               st.vars[next := Variable(typeId, FunctionStorage, 0)],
               renamed[next := param.(decoration := param.decoration.(alias := name, qualifiedAlias := global.decoration.qualifiedAlias))])
  }

  /** The parameter loop from iteration `k` on: global `args[i]` gains the
      variable `next + i`. */
  function AddArgsFrom(st: ParamState, args: seq<Id>, next: Id, k: nat, nameOf: (Meta, Id) -> string): ParamState
    requires k <= |args|
    requires forall i :: 0 <= i < |args| ==> args[i] in st.vars && args[i] < next
    decreases |args| - k
  {
    if k == |args| then st
    else AddArgsFrom(AddArg(st, args[k], next + k, nameOf), args, next, k + 1, nameOf)
  }

  /** The whole parameter loop for function f, written back to the arena. */
  function AddArgs(a: Arena, f: Id, args: seq<Id>, next: Id, reserved: set<string>): (r: Arena)
    requires f in a.funcs
    requires forall i :: 0 <= i < |args| ==> args[i] in a.vars && args[i] < next
    ensures r == a.(funcs := r.funcs, vars := r.vars, meta := r.meta)
  {
    var st := AddArgsFrom(ParamState(a.funcs[f].params, a.vars, a.meta), args, next, 0,
                          (m: Meta, x: Id) => ArgName(m, x, reserved));
    a.(funcs := a.funcs[f := a.funcs[f].(params := st.params)], vars := st.vars, meta := st.meta)
  }

  /** A function record with parameters appended to its list. */
  function AppendParams(fn: Function, extra: seq<Parameter>): (r: Function)
    ensures r.params == fn.params + extra
    ensures r.returnType == fn.returnType && r.blocks == fn.blocks && r.locals == fn.locals
  {
    fn.(params := fn.params + extra)
  }

  /** The parameters iterations `k` onwards append: one per global, typed
      like it, with consecutive IDs. */
  function ParamsFrom(vars: map<Id, Variable>, args: seq<Id>, next: Id, k: nat): (r: seq<Parameter>)
    requires k <= |args|
    requires forall i :: 0 <= i < |args| ==> args[i] in vars
    ensures |r| == |args| - k
    decreases |args| - k
  {
    if k == |args| then [] else [Parameter(vars[args[k]].basetype, next + k)] + ParamsFrom(vars, args, next, k + 1)
  }

  /** Element j is the parameter of global `args[k + j]`, with ID
      `next + k + j`. */
  lemma {:induction false} ParamsFromIndex(vars: map<Id, Variable>, args: seq<Id>, next: Id, k: nat)
    requires k <= |args|
    requires forall i :: 0 <= i < |args| ==> args[i] in vars
    ensures forall j :: 0 <= j < |args| - k ==>
              ParamsFrom(vars, args, next, k)[j] == Parameter(vars[args[k + j]].basetype, next + k + j)
    decreases |args| - k
  {
    if k < |args| {
      ParamsFromIndex(vars, args, next, k + 1);
      var r := ParamsFrom(vars, args, next, k);
      forall j | 0 < j < |args| - k
        ensures r[j] == Parameter(vars[args[k + j]].basetype, next + k + j)
      {
        assert r[j] == ParamsFrom(vars, args, next, k + 1)[j - 1];
      }
    }
  }

  /** The parameters only read the types of the globals, so a table that
      agrees on the variables below `next` gives the same list. */
  lemma {:induction false} ParamsFromAgree(vars: map<Id, Variable>, vars1: map<Id, Variable>, args: seq<Id>, next: Id, k: nat)
    requires k <= |args|
    requires forall i :: 0 <= i < |args| ==> args[i] in vars && args[i] < next
    requires forall x :: x in vars && x < next ==> x in vars1 && vars1[x] == vars[x]
    ensures forall i :: 0 <= i < |args| ==> args[i] in vars1
    ensures ParamsFrom(vars, args, next, k) == ParamsFrom(vars1, args, next, k)
    decreases |args| - k
  {
    if k < |args| {
      ParamsFromAgree(vars, vars1, args, next, k + 1);
    }
  }

  /** The loop appends exactly the new parameters. */
  lemma {:induction false} AddArgsFromParams(st: ParamState, args: seq<Id>, next: Id, k: nat, nameOf: (Meta, Id) -> string)
    requires k <= |args|
    requires forall i :: 0 <= i < |args| ==> args[i] in st.vars && args[i] < next
    ensures AddArgsFrom(st, args, next, k, nameOf).params == st.params + ParamsFrom(st.vars, args, next, k)
    decreases |args| - k
  {
    if k == |args| {
      assert st.params + ParamsFrom(st.vars, args, next, k) == st.params;
    } else {
      var st1 := AddArg(st, args[k], next + k, nameOf);
      AddArgsFromParams(st1, args, next, k + 1, nameOf);
      ParamsFromAgree(st.vars, st1.vars, args, next, k + 1);
      var p := Parameter(st.vars[args[k]].basetype, next + k);
      assert (st.params + [p]) + ParamsFrom(st1.vars, args, next, k + 1)
             == st.params + ([p] + ParamsFrom(st.vars, args, next, k + 1));
    }
  }

  /** Variables below the first ID still to allocate are kept. */
  lemma {:induction false} AddArgsFromKeepsVars(st: ParamState, args: seq<Id>, next: Id, k: nat, nameOf: (Meta, Id) -> string)
    requires k <= |args|
    requires forall i :: 0 <= i < |args| ==> args[i] in st.vars && args[i] < next
    ensures var r := AddArgsFrom(st, args, next, k, nameOf);
            forall v :: v in st.vars && v < next + k ==> v in r.vars && r.vars[v] == st.vars[v]
    decreases |args| - k
  {
    if k < |args| {
      AddArgsFromKeepsVars(AddArg(st, args[k], next + k, nameOf), args, next, k + 1, nameOf);
    }
  }

  /** The variable of iteration i, `next + i`, is a Function-storage
      variable typed like global `args[i]`. */
  lemma {:induction false} AddArgsFromNewVars(st: ParamState, args: seq<Id>, next: Id, k: nat, nameOf: (Meta, Id) -> string)
    requires k <= |args|
    requires forall i :: 0 <= i < |args| ==> args[i] in st.vars && args[i] < next
    ensures var r := AddArgsFrom(st, args, next, k, nameOf);
            forall v: Id :: next + k <= v < next + |args| ==>
              v in r.vars && r.vars[v] == Variable(st.vars[args[v - next]].basetype, FunctionStorage, 0)
    decreases |args| - k
  {
    if k < |args| {
      var st1 := AddArg(st, args[k], next + k, nameOf);
      AddArgsFromNewVars(st1, args, next, k + 1, nameOf);
      AddArgsFromKeepsVars(st1, args, next, k + 1, nameOf);
      var r := AddArgsFrom(st, args, next, k, nameOf);
      assert r == AddArgsFrom(st1, args, next, k + 1, nameOf);
      assert next + k in st1.vars;
      forall v: Id | next + k < v < next + |args|
        ensures v in r.vars && r.vars[v] == Variable(st.vars[args[v - next]].basetype, FunctionStorage, 0)
      {
        assert st1.vars[args[v - next]] == st.vars[args[v - next]];
      }
    }
  }

  /** No variable other than the new ones is added. */
  lemma {:induction false} AddArgsFromVarsDomain(st: ParamState, args: seq<Id>, next: Id, k: nat, nameOf: (Meta, Id) -> string)
    requires k <= |args|
    requires forall i :: 0 <= i < |args| ==> args[i] in st.vars && args[i] < next
    ensures var r := AddArgsFrom(st, args, next, k, nameOf);
            forall v :: v in r.vars ==> v in st.vars || next + k <= v < next + |args|
    decreases |args| - k
  {
    if k < |args| {
      var st1 := AddArg(st, args[k], next + k, nameOf);
      AddArgsFromVarsDomain(st1, args, next, k + 1, nameOf);
      assert forall v :: v in st1.vars ==> v in st.vars || v == next + k;
    }
  }

  /** The IDs iterations `k` onwards rename: a global still to come. */
  predicate Pending(args: seq<Id>, k: nat, id: Id) {
    exists i :: k <= i < |args| && args[i] == id
  }

  /** A global still to come after iteration k was still to come before it. */
  lemma PendingShrinks(args: seq<Id>, k: nat, id: Id)
    ensures Pending(args, k + 1, id) ==> Pending(args, k, id)
  {
    if Pending(args, k + 1, id) {
      var i :| k + 1 <= i < |args| && args[i] == id;
      assert k <= i;
    }
  }

  /** Metadata of IDs the remaining iterations neither rename nor allocate
      is left alone. */
  lemma {:induction false} AddArgsFromFrame(st: ParamState, args: seq<Id>, next: Id, k: nat, nameOf: (Meta, Id) -> string)
    requires k <= |args|
    requires forall i :: 0 <= i < |args| ==> args[i] in st.vars && args[i] < next
    ensures var r := AddArgsFrom(st, args, next, k, nameOf);
            forall id: Id :: !Pending(args, k, id) && !(next + k <= id < next + |args|) ==> MetaAt(r.meta, id) == MetaAt(st.meta, id)
    decreases |args| - k
  {
    if k < |args| {
      var st1 := AddArg(st, args[k], next + k, nameOf);
      AddArgsFromFrame(st1, args, next, k + 1, nameOf);
      forall id: Id | !Pending(args, k, id) && !(next + k <= id < next + |args|)
        ensures !Pending(args, k + 1, id) && MetaAt(st1.meta, id) == MetaAt(st.meta, id)
      {
        assert id != args[k];
        PendingShrinks(args, k, id);
      }
    }
  }

  /** One iteration names the global and its new parameter. */
  lemma AddArgNames(st: ParamState, arg: Id, next: Id, nameOf: (Meta, Id) -> string)
    requires arg in st.vars && arg != next
    ensures MetaAt(AddArg(st, arg, next, nameOf).meta, arg).decoration
            == MetaAt(st.meta, arg).decoration.(alias := nameOf(MetaAt(st.meta, arg), arg))
    ensures MetaAt(AddArg(st, arg, next, nameOf).meta, arg).members == MetaAt(st.meta, arg).members
    ensures MetaAt(AddArg(st, arg, next, nameOf).meta, next).decoration.alias == nameOf(MetaAt(st.meta, arg), arg)
    ensures MetaAt(AddArg(st, arg, next, nameOf).meta, next).decoration.qualifiedAlias
            == MetaAt(st.meta, arg).decoration.qualifiedAlias
  {
  }

  /** The frame of the loop at one ID. */
  lemma AddArgsFromFrameAt(st: ParamState, args: seq<Id>, next: Id, k: nat, nameOf: (Meta, Id) -> string, id: Id)
    requires k <= |args|
    requires forall i :: 0 <= i < |args| ==> args[i] in st.vars && args[i] < next
    requires !Pending(args, k, id) && !(next + k <= id < next + |args|)
    ensures MetaAt(AddArgsFrom(st, args, next, k, nameOf).meta, id) == MetaAt(st.meta, id)
  {
    AddArgsFromFrame(st, args, next, k, nameOf);
  }

  /** Each global handled from iteration k on takes the name nameOf gives
      it; its member metadata is kept. */
  lemma {:induction false} AddArgsFromGlobalNames(st: ParamState, args: seq<Id>, next: Id, k: nat, nameOf: (Meta, Id) -> string, r: ParamState)
    requires k <= |args|
    requires forall i :: 0 <= i < |args| ==> args[i] in st.vars && args[i] < next
    requires NoDuplicates(args)
    requires r == AddArgsFrom(st, args, next, k, nameOf)
    ensures forall i :: k <= i < |args| ==>
              MetaAt(r.meta, args[i]).decoration == MetaAt(st.meta, args[i]).decoration.(alias := nameOf(MetaAt(st.meta, args[i]), args[i]))
    ensures forall i :: k <= i < |args| ==> MetaAt(r.meta, args[i]).members == MetaAt(st.meta, args[i]).members
    decreases |args| - k
  {
    if k < |args| {
      var st1 := AddArg(st, args[k], next + k, nameOf);
      AddArgsFromGlobalNames(st1, args, next, k + 1, nameOf, r);
      assert !Pending(args, k + 1, args[k]) by {
        forall i | k + 1 <= i < |args| ensures args[i] != args[k] { }
      }
      AddArgsFromFrameAt(st1, args, next, k + 1, nameOf, args[k]);
      AddArgNames(st, args[k], next + k, nameOf);
      forall i | k <= i < |args|
        ensures MetaAt(r.meta, args[i]).decoration == MetaAt(st.meta, args[i]).decoration.(alias := nameOf(MetaAt(st.meta, args[i]), args[i]))
        ensures MetaAt(r.meta, args[i]).members == MetaAt(st.meta, args[i]).members
      {
        if i > k {
          assert args[i] != args[k];
          assert MetaAt(st1.meta, args[i]) == MetaAt(st.meta, args[i]);
        }
      }
    }
  }

  /** The parameter allocated in iteration i takes the name of global i and
      its qualified alias. */
  lemma {:induction false} AddArgsFromParamNames(st: ParamState, args: seq<Id>, next: Id, k: nat, nameOf: (Meta, Id) -> string, r: ParamState)
    requires k <= |args|
    requires forall i :: 0 <= i < |args| ==> args[i] in st.vars && args[i] < next
    requires NoDuplicates(args)
    requires r == AddArgsFrom(st, args, next, k, nameOf)
    ensures forall i :: k <= i < |args| ==> MetaAt(r.meta, next + i).decoration.alias == nameOf(MetaAt(st.meta, args[i]), args[i])
    ensures forall i :: k <= i < |args| ==>
              MetaAt(r.meta, next + i).decoration.qualifiedAlias == MetaAt(st.meta, args[i]).decoration.qualifiedAlias
    decreases |args| - k
  {
    if k < |args| {
      var st1 := AddArg(st, args[k], next + k, nameOf);
      AddArgsFromParamNames(st1, args, next, k + 1, nameOf, r);
      AddArgsFromFrameAt(st1, args, next, k + 1, nameOf, next + k);
      AddArgNames(st, args[k], next + k, nameOf);
      forall i | k <= i < |args|
        ensures MetaAt(r.meta, next + i).decoration.alias == nameOf(MetaAt(st.meta, args[i]), args[i])
        ensures MetaAt(r.meta, next + i).decoration.qualifiedAlias == MetaAt(st.meta, args[i]).decoration.qualifiedAlias
      {
        if i > k {
          assert args[i] != args[k];
          assert MetaAt(st1.meta, args[i]) == MetaAt(st.meta, args[i]);
        }
      }
    }
  }

  /** The loop for one function f: f's parameter list grows by one
      parameter per global, typed like the global and numbered consecutively
      from `next`, and every other function is kept. */
  lemma AddArgsParams(a: Arena, f: Id, args: seq<Id>, next: Id, reserved: set<string>)
    requires f in a.funcs
    requires forall i :: 0 <= i < |args| ==> args[i] in a.vars && args[i] < next
    ensures AddArgs(a, f, args, next, reserved).funcs
            == a.funcs[f := AppendParams(a.funcs[f], ParamsFrom(a.vars, args, next, 0))]
  {
    AddArgsFromParams(ParamState(a.funcs[f].params, a.vars, a.meta), args, next, 0, (m: Meta, x: Id) => ArgName(m, x, reserved));
  }

  /** Every existing variable is kept, and the only new variables are the
      new parameters, Function-storage variables typed like their globals. */
  lemma AddArgsVars(a: Arena, f: Id, args: seq<Id>, next: Id, reserved: set<string>)
    requires f in a.funcs
    requires forall i :: 0 <= i < |args| ==> args[i] in a.vars && args[i] < next
    ensures var r := AddArgs(a, f, args, next, reserved);
            && (forall v :: v in a.vars && v < next ==> v in r.vars && r.vars[v] == a.vars[v])
            && (forall v: Id :: next <= v < next + |args| ==>
                  v in r.vars && r.vars[v] == Variable(a.vars[args[v - next]].basetype, FunctionStorage, 0))
            && (forall v :: v in r.vars ==> v in a.vars || next <= v < next + |args|)
  {
    var st := ParamState(a.funcs[f].params, a.vars, a.meta);
    var nameOf := (m: Meta, x: Id) => ArgName(m, x, reserved);
    AddArgsFromKeepsVars(st, args, next, 0, nameOf);
    AddArgsFromNewVars(st, args, next, 0, nameOf);
    AddArgsFromVarsDomain(st, args, next, 0, nameOf);
  }

  /** The names the loop leaves: each global is renamed to its validated
      name, its parameter variable takes the same name and the global's
      qualified alias, and no other ID's metadata changes. */
  lemma AddArgsNames(a: Arena, f: Id, args: seq<Id>, next: Id, reserved: set<string>)
    requires f in a.funcs
    requires forall i :: 0 <= i < |args| ==> args[i] in a.vars && args[i] < next
    requires NoDuplicates(args)
    ensures var r := AddArgs(a, f, args, next, reserved);
            && (forall i :: 0 <= i < |args| ==>
                  && DecOf(r, args[i]) == DecOf(a, args[i]).(alias := EnsureValidName(BaseName(a, args[i]), "v", reserved))
                  && MetaOf(r, args[i]).members == MetaOf(a, args[i]).members)
            && (forall v: Id :: next <= v < next + |args| ==>
                  && DecOf(r, v).alias == EnsureValidName(BaseName(a, args[v - next]), "v", reserved)
                  && DecOf(r, v).qualifiedAlias == DecOf(a, args[v - next]).qualifiedAlias)
            && (forall id: Id :: id !in args && !(next <= id < next + |args|) ==> MetaOf(r, id) == MetaOf(a, id))
  {
    var st := ParamState(a.funcs[f].params, a.vars, a.meta);
    var nameOf := (m: Meta, x: Id) => ArgName(m, x, reserved);
    AddArgsFromGlobalNames(st, args, next, 0, nameOf, AddArgsFrom(st, args, next, 0, nameOf));
    AddArgsFromParamNames(st, args, next, 0, nameOf, AddArgsFrom(st, args, next, 0, nameOf));
    AddArgsFromFrame(st, args, next, 0, nameOf);
    var r := AddArgs(a, f, args, next, reserved);
    forall v: Id | next <= v < next + |args|
      ensures DecOf(r, v).alias == EnsureValidName(BaseName(a, args[v - next]), "v", reserved)
      ensures DecOf(r, v).qualifiedAlias == DecOf(a, args[v - next]).qualifiedAlias
    {
      var i := v - next;
      assert next + i == v;
    }
    forall id: Id | id !in args && !(next <= id < next + |args|)
      ensures MetaOf(r, id) == MetaOf(a, id)
    {
      assert !Pending(args, 0, id);
    }
  }

  /** Every variable ID is below the allocation bound. */
  predicate VarsBelowBound(a: Arena) {
    forall v :: v in a.vars ==> v < a.bound
  }

  /** The order in which a function's globals are visited: the source walks
      an unordered set, modelled as ascending ID order. */
  function ArgOrder(found: set<Id>, a: Arena): (r: seq<Id>)
    requires VarsBelowBound(a) && forall x :: x in found ==> x in a.vars
    ensures |r| == |found|
    ensures forall i :: 0 <= i < |r| ==> r[i] in found && r[i] in a.vars && r[i] < a.bound
    ensures forall x :: x in found ==> x in r
    ensures NoDuplicates(r)
  {
    AscendingIdsCard(found, a.bound);
    var r := AscendingIds(found, 0, a.bound);
    assert forall i :: 0 <= i < |r| ==> r[i] in r;
    r
  }

  /** The tail of extract_global_variables_from_function for one completed
      function: unless it is the entry function, the bound is raised by the
      number of globals found and the parameter loop runs from the old
      bound. */
  function AddFunctionParams(a: Arena, f: Id, found: set<Id>, reserved: set<string>): (r: Arena)
    requires f in a.funcs && VarsBelowBound(a)
    requires forall x :: x in found ==> x in a.vars
    ensures r == a.(funcs := r.funcs, vars := r.vars, meta := r.meta, bound := r.bound)
    ensures r.bound == a.bound + (if f == a.entryPoint then 0 else |found|)
    ensures r.funcs.Keys == a.funcs.Keys
    ensures forall g :: g in a.funcs && g != f ==> r.funcs[g] == a.funcs[g]
    ensures f == a.entryPoint ==> r == a
    ensures f != a.entryPoint ==>
              r.funcs[f] == AppendParams(a.funcs[f], ParamsFrom(a.vars, ArgOrder(found, a), a.bound, 0))
    ensures forall v :: v in a.vars ==> v in r.vars && r.vars[v] == a.vars[v]
    ensures VarsBelowBound(r)
  {
    if f == a.entryPoint then a else AddGlobalParams(a, f, found, reserved)
  }

  /** The parameter loop for a function other than the entry point: the
      bound is raised by the number of globals, and one parameter per global,
      in visiting order, is appended from the old bound. */
  function AddGlobalParams(a: Arena, f: Id, found: set<Id>, reserved: set<string>): (r: Arena)
    requires f in a.funcs && VarsBelowBound(a)
    requires forall x :: x in found ==> x in a.vars
    ensures r == a.(funcs := r.funcs, vars := r.vars, meta := r.meta, bound := r.bound)
    ensures r.bound == a.bound + |found|
    ensures r.funcs == a.funcs[f := AppendParams(a.funcs[f], ParamsFrom(a.vars, ArgOrder(found, a), a.bound, 0))]
    ensures forall v :: v in a.vars ==> v in r.vars && r.vars[v] == a.vars[v]
    ensures VarsBelowBound(r)
  {
    var args := ArgOrder(found, a);
    var a1 := a.(bound := a.bound + |args|);
    AddArgsParams(a1, f, args, a.bound, reserved);
    AddArgsVars(a1, f, args, a.bound, reserved);
    AddArgs(a1, f, args, a.bound, reserved)
  }

  /** The head of a strictly ascending list is its least element. */
  lemma AscendingHeadLeast(p: seq<Id>, x: Id)
    requires forall i, j :: 0 <= i < j < |p| ==> p[i] < p[j]
    requires x in p
    ensures p[0] <= x
  {
    var j :| 0 <= j < |p| && p[j] == x;
    if j > 0 {
      assert p[0] < p[j];
    }
  }

  /** Lists with the same elements are empty together. */
  lemma SameElementsEmpty(p: seq<Id>, q: seq<Id>)
    requires forall x :: x in p <==> x in q
    ensures p == [] <==> q == []
  {
    if p != [] {
      assert p[0] in q;
    }
    if q != [] {
      assert q[0] in p;
    }
  }

  /** Two strictly ascending lists with the same elements and the same head
      have tails with the same elements. */
  lemma AscendingTailsAgree(p: seq<Id>, q: seq<Id>)
    requires p != [] && q != [] && p[0] == q[0]
    requires forall i, j :: 0 <= i < j < |p| ==> p[i] < p[j]
    requires forall i, j :: 0 <= i < j < |q| ==> q[i] < q[j]
    requires forall x :: x in p <==> x in q
    ensures forall x :: x in p[1..] <==> x in q[1..]
  {
    forall x ensures x in p[1..] <==> x in q[1..] {
      if x in p[1..] {
        var i :| 0 <= i < |p| - 1 && p[1..][i] == x;
        assert p[i + 1] == x && p[0] < x;
        assert x in q && x != q[0];
        var j :| 0 <= j < |q| && q[j] == x;
        assert q[1..][j - 1] == x;
      }
      if x in q[1..] {
        var j :| 0 <= j < |q| - 1 && q[1..][j] == x;
        assert q[j + 1] == x && q[0] < x;
        assert x in p && x != p[0];
        var i :| 0 <= i < |p| && p[i] == x;
        assert p[1..][i - 1] == x;
      }
    }
  }

  /** Two strictly ascending lists with the same elements are equal. */
  lemma {:induction false} AscendingUnique(p: seq<Id>, q: seq<Id>)
    requires forall i, j :: 0 <= i < j < |p| ==> p[i] < p[j]
    requires forall i, j :: 0 <= i < j < |q| ==> q[i] < q[j]
    requires forall x :: x in p <==> x in q
    ensures p == q
    decreases |p|
  {
    SameElementsEmpty(p, q);
    if p != [] {
      AscendingHeadLeast(p, q[0]);
      AscendingHeadLeast(q, p[0]);
      AscendingTailsAgree(p, q);
      AscendingUnique(p[1..], q[1..]);
      assert p == [p[0]] + p[1..] && q == [q[0]] + q[1..];
    }
  }

  /** The visiting order does not depend on how far the bound has grown. */
  lemma ArgOrderStable(found: set<Id>, a: Arena, b: Arena)
    requires VarsBelowBound(a) && forall x :: x in found ==> x in a.vars
    requires VarsBelowBound(b) && forall x :: x in found ==> x in b.vars
    ensures ArgOrder(found, a) == ArgOrder(found, b)
  {
    AscendingUnique(ArgOrder(found, a), ArgOrder(found, b));
  }

  /** The number of IDs the parameter additions for `order` allocate. */
  function Allocated(entry: Id, order: seq<Id>, memo: map<Id, set<Id>>): nat
    requires forall g :: g in order ==> g in memo
  {
    if order == [] then 0
    else (if order[0] == entry then 0 else |memo[order[0]]|) + Allocated(entry, order[1..], memo)
  }

  /** The memo sets of the functions in `order` are variables. */
  predicate MemoVars(a: Arena, order: seq<Id>, memo: map<Id, set<Id>>) {
    forall g :: g in order ==> g in a.funcs && g in memo && forall x :: x in memo[g] ==> x in a.vars
  }

  /** Parameter addition for every completed function, in completion order. */
  function AddAllParams(a: Arena, order: seq<Id>, memo: map<Id, set<Id>>, reserved: set<string>): (r: Arena)
    requires VarsBelowBound(a) && MemoVars(a, order, memo)
    ensures r == a.(funcs := r.funcs, vars := r.vars, meta := r.meta, bound := r.bound)
    ensures r.bound == a.bound + Allocated(a.entryPoint, order, memo)
    ensures r.funcs.Keys == a.funcs.Keys
    ensures forall g :: g in a.funcs && (g !in order || g == a.entryPoint) ==> r.funcs[g] == a.funcs[g]
    ensures forall v :: v in a.vars ==> v in r.vars && r.vars[v] == a.vars[v]
    ensures VarsBelowBound(r)
    decreases |order|
  {
    if order == [] then a
    else
      var a1 := AddFunctionParams(a, order[0], memo[order[0]], reserved);
      assert MemoVars(a1, order[1..], memo) by {
        forall g | g in order[1..] ensures g in order { }
      }
      var r := AddAllParams(a1, order[1..], memo, reserved);
      assert forall g :: g !in order ==> g !in order[1..] && g != order[0];
      r
  }

  /** The list without its first entry still has no duplicates and does not
      contain that entry. */
  lemma NoDuplicatesTail(order: seq<Id>)
    requires order != [] && NoDuplicates(order)
    ensures NoDuplicates(order[1..]) && order[0] !in order[1..]
  {
    var rest := order[1..];
    forall i, j | 0 <= i < j < |rest| ensures rest[i] != rest[j] {
      assert rest[i] == order[i + 1] && rest[j] == order[j + 1];
    }
    forall i | 0 <= i < |rest| ensures rest[i] != order[0] {
      assert rest[i] == order[i + 1];
    }
  }

  /** One step of AddAllParams. */
  lemma AddAllParamsStep(a: Arena, order: seq<Id>, memo: map<Id, set<Id>>, reserved: set<string>)
    requires VarsBelowBound(a) && MemoVars(a, order, memo) && order != []
    ensures var a1 := AddFunctionParams(a, order[0], memo[order[0]], reserved);
            && VarsBelowBound(a1) && MemoVars(a1, order[1..], memo)
            && AddAllParams(a, order, memo, reserved) == AddAllParams(a1, order[1..], memo, reserved)
  {
    forall g | g in order[1..] ensures g in order { }
  }

  /** The function completed first gains its parameters from the bound. */
  lemma AddAllParamsGainsFirst(a: Arena, order: seq<Id>, memo: map<Id, set<Id>>, reserved: set<string>)
    requires VarsBelowBound(a) && MemoVars(a, order, memo) && NoDuplicates(order)
    requires order != [] && order[0] != a.entryPoint
    ensures var f := order[0];
            AddAllParams(a, order, memo, reserved).funcs[f]
            == AppendParams(a.funcs[f], ParamsFrom(a.vars, ArgOrder(memo[f], a), a.bound, 0))
  {
    AddAllParamsStep(a, order, memo, reserved);
    NoDuplicatesTail(order);
  }

  /** The entries of a prefix and of a suffix are entries of the list. */
  lemma MemoVarsSlices(a: Arena, order: seq<Id>, memo: map<Id, set<Id>>, k: nat)
    requires MemoVars(a, order, memo) && k <= |order|
    ensures MemoVars(a, order[..k], memo)
  {
    forall g | g in order[..k] ensures g in order { }
  }

  /** Processing a list is processing its first k entries, giving b, then
      the rest. */
  lemma {:induction false} AddAllParamsSplit(a: Arena, order: seq<Id>, memo: map<Id, set<Id>>, reserved: set<string>, k: nat, b: Arena)
    requires VarsBelowBound(a) && MemoVars(a, order, memo) && k <= |order|
    requires MemoVars(a, order[..k], memo)
    requires b == AddAllParams(a, order[..k], memo, reserved)
    ensures MemoVars(b, order[k..], memo)
    ensures AddAllParams(a, order, memo, reserved) == AddAllParams(b, order[k..], memo, reserved)
    decreases k
  {
    SliceShift(order, k);
    if k > 0 {
      AddAllParamsStep(a, order, memo, reserved);
      var a1 := AddFunctionParams(a, order[0], memo[order[0]], reserved);
      MemoVarsSlices(a1, order[1..], memo, k - 1);
      AddAllParamsStep(a, order[..k], memo, reserved);
      AddAllParamsSplit(a1, order[1..], memo, reserved, k - 1, b);
    }
  }

  /** How the slices of a list relate to the slices of its tail. */
  lemma SliceShift(order: seq<Id>, k: nat)
    requires k <= |order|
    ensures forall g :: g in order[k..] ==> g in order
    ensures k == 0 ==> order[..k] == [] && order[k..] == order
    ensures k > 0 ==> order[..k][1..] == order[1..][..k - 1] && order[1..][k - 1..] == order[k..]
  {
    forall g | g in order[k..] ensures g in order { }
  }

  /** The function completed k-th gains the parameters of its globals, in
      visiting order, numbered from the bound left by the functions completed
      before it. */
  lemma AddAllParamsGains(a: Arena, order: seq<Id>, memo: map<Id, set<Id>>, reserved: set<string>, k: nat, r: Arena, start: Id)
    requires VarsBelowBound(a) && MemoVars(a, order, memo) && NoDuplicates(order)
    requires k < |order| && order[k] != a.entryPoint
    requires r == AddAllParams(a, order, memo, reserved)
    requires start == a.bound + Allocated(a.entryPoint, order[..k], memo)
    ensures r.funcs[order[k]] == AppendParams(a.funcs[order[k]], ParamsFrom(a.vars, ArgOrder(memo[order[k]], a), start, 0))
  {
    MemoVarsSlices(a, order, memo, k);
    AddAllParamsGainsAt(a, order, memo, reserved, k, start);
  }

  /** Splitting a list without duplicates at k: the tail has none either, it
      starts with entry k, and that entry is not among the first k. */
  lemma NoDuplicatesSplit(order: seq<Id>, k: nat)
    requires NoDuplicates(order) && k < |order|
    ensures NoDuplicates(order[k..]) && order[k..][0] == order[k]
    ensures order[k] in order && order[k] !in order[..k]
  {
    var tail := order[k..];
    forall i, j | 0 <= i < j < |tail| ensures tail[i] != tail[j] {
      assert tail[i] == order[k + i] && tail[j] == order[k + j];
    }
    forall i | 0 <= i < k ensures order[..k][i] != order[k] {
      assert order[..k][i] == order[i];
    }
  }

  /** Function k, processed after the first k have shifted the arena from
      `a` to `b`, gains the parameters it would have gained in `a`, numbered
      from b's bound. */
  lemma AddAllParamsGainsAt(a: Arena, order: seq<Id>, memo: map<Id, set<Id>>, reserved: set<string>, k: nat, start: Id)
    requires VarsBelowBound(a) && MemoVars(a, order, memo) && NoDuplicates(order)
    requires k < |order| && order[k] != a.entryPoint
    requires MemoVars(a, order[..k], memo) && start == AddAllParams(a, order[..k], memo, reserved).bound
    ensures AddAllParams(a, order, memo, reserved).funcs[order[k]]
            == AppendParams(a.funcs[order[k]], ParamsFrom(a.vars, ArgOrder(memo[order[k]], a), start, 0))
  {
    var b := AddAllParams(a, order[..k], memo, reserved);
    AddAllParamsSplit(a, order, memo, reserved, k, b);
    var f := order[k];
    var tail := order[k..];
    NoDuplicatesSplit(order, k);
    AddAllParamsGainsFirst(b, tail, memo, reserved);
    ArgOrderStable(memo[f], b, a);
    ParamsFromAgree(a.vars, b.vars, ArgOrder(memo[f], a), b.bound, 0);
  }

  /** The walk extract_global_variables_from_functions starts at the entry
      point with nothing processed. */
  function Extraction(a: Arena): (w: Walk)
    requires WellFormed(a)
    ensures a.entryPoint in w.memo
    ensures w.processed <= a.funcs.Keys && w.processed == w.memo.Keys
    ensures forall g :: g in w.memo ==> CalleesIn(a, g, w.memo.Keys)
    ensures NoDuplicates(w.finished) && Elements(w.finished) == w.memo.Keys
    ensures forall g :: g in w.memo ==> w.memo[g] <= Extractable(a, GlobalVarIds(a))
    ensures MemoVars(a, w.finished, w.memo)
  {
    var gids := GlobalVarIds(a);
    assert WalkInv(a, gids, EmptyWalk);
    var w := ExtractFrom(a, gids, a.entryPoint, EmptyWalk).1;
    assert w.processed - w.memo.Keys == EmptyWalk.processed - EmptyWalk.memo.Keys == {};
    assert w.processed == w.memo.Keys;
    assert MemoVars(a, w.finished, w.memo) by {
      forall g | g in w.finished
        ensures g in a.funcs && g in w.memo && forall x :: x in w.memo[g] ==> x in a.vars
      {
        assert g in Elements(w.finished);
      }
    }
    w
  }

  /** extract_global_variables_from_functions: walk the call graph from the
      entry point, then give every completed function other than the entry
      point one new parameter per global it needs. */
  function ExtractGlobalVariablesFromFunctions(a: Arena, reserved: set<string>): (r: Arena)
    requires WellFormed(a)
    ensures r == a.(funcs := r.funcs, vars := r.vars, meta := r.meta, bound := r.bound)
    ensures r.bound == a.bound + Allocated(a.entryPoint, Extraction(a).finished, Extraction(a).memo)
    ensures r.funcs.Keys == a.funcs.Keys
    ensures r.funcs[a.entryPoint] == a.funcs[a.entryPoint]
    ensures forall g :: g in a.funcs && g !in Extraction(a).memo ==> r.funcs[g] == a.funcs[g]
    ensures forall v :: v in a.vars ==> v in r.vars && r.vars[v] == a.vars[v]
  {
    var w := Extraction(a);
    assert a.entryPoint in Elements(w.finished);
    AddAllParams(a, w.finished, w.memo, reserved)
  }

  /** Each completed function other than the entry point gains, after its
      existing parameters, one parameter per global in its set, in visiting
      order, typed like the global and numbered consecutively from the bound
      left by the functions completed before it. */
  lemma ExtractGainsParams(a: Arena, reserved: set<string>, order: seq<Id>, memo: map<Id, set<Id>>, k: nat, start: Id)
    requires WellFormed(a)
    requires order == Extraction(a).finished && memo == Extraction(a).memo
    requires k < |order| && order[k] != a.entryPoint
    requires start == a.bound + Allocated(a.entryPoint, order[..k], memo)
    ensures ExtractGlobalVariablesFromFunctions(a, reserved).funcs[order[k]]
            == AppendParams(a.funcs[order[k]], ParamsFrom(a.vars, ArgOrder(memo[order[k]], a), start, 0))
  {
    AddAllParamsGains(a, order, memo, reserved, k, AddAllParams(a, order, memo, reserved), start);
  }

  /** The blocks of IDs handed out to the completed functions follow one
      another: function k's parameters lie below the start of function
      k + 1's, and all of them below the final bound. */
  lemma {:induction false} AllocatedPrefix(entry: Id, order: seq<Id>, memo: map<Id, set<Id>>, k: nat)
    requires forall g :: g in order ==> g in memo
    requires k < |order|
    ensures forall g :: g in order[..k] ==> g in memo
    ensures forall g :: g in order[..k + 1] ==> g in memo
    ensures Allocated(entry, order[..k + 1], memo)
            == Allocated(entry, order[..k], memo) + (if order[k] == entry then 0 else |memo[order[k]]|)
    ensures Allocated(entry, order[..k + 1], memo) <= Allocated(entry, order, memo)
    decreases k
  {
    assert forall g :: g in order[..k + 1] ==> g in order;
    assert forall g :: g in order[..k] ==> g in order;
    if k == 0 {
      assert order[..1] == [order[0]] && order[..1][1..] == [];
      AllocatedNonNeg(entry, order[1..], memo);
    } else {
      assert order[1..][..k] == order[..k + 1][1..];
      assert order[1..][..k - 1] == order[..k][1..];
      assert forall g :: g in order[1..] ==> g in order;
      AllocatedPrefix(entry, order[1..], memo, k - 1);
    }
  }

  lemma AllocatedNonNeg(entry: Id, order: seq<Id>, memo: map<Id, set<Id>>)
    requires forall g :: g in order ==> g in memo
    ensures Allocated(entry, order, memo) >= 0
  {
  }

  /** On an acyclic call graph every completed function's set is exactly the
      reference set: what it loads or accesses itself plus what its callees
      need. */
  lemma ExtractionNeeds(a: Arena, rank: map<Id, nat>)
    requires WellFormed(a) && RankedCalls(a, rank)
    ensures forall g :: g in Extraction(a).memo ==> Extraction(a).memo[g] == Needs(a, GlobalVarIds(a), rank, g)
  {
    var gids := GlobalVarIds(a);
    assert WalkInv(a, gids, EmptyWalk);
    ExtractAgrees(a, gids, rank, a.entryPoint, EmptyWalk);
  }

  /** Function f's body contains a call to g. */
  predicate Calls(a: Arena, f: Id, g: Id)
    requires Walkable(a) && f in a.funcs
  {
    exists i :: 0 <= i < |FuncOps(a, f)| && FuncOps(a, f)[i] == FunctionCall(g)
  }

  /** A chain of functions, each calling the next. */
  predicate CallPath(a: Arena, path: seq<Id>)
    requires Walkable(a)
  {
    && |path| >= 1
    && (forall k :: 0 <= k < |path| ==> path[k] in a.funcs)
    && (forall k :: 0 <= k < |path| - 1 ==> Calls(a, path[k], path[k + 1]))
  }

  /** The walk from the entry point completes every function the entry point
      reaches through calls. */
  lemma {:induction false} ReachedIsCompleted(a: Arena, path: seq<Id>)
    requires WellFormed(a) && CallPath(a, path) && path[0] == a.entryPoint
    ensures path[|path| - 1] in Extraction(a).memo
    decreases |path|
  {
    if |path| > 1 {
      var prefix := path[..|path| - 1];
      assert CallPath(a, prefix) by {
        forall k | 0 <= k < |prefix| - 1 ensures Calls(a, prefix[k], prefix[k + 1]) {
          assert prefix[k] == path[k] && prefix[k + 1] == path[k + 1];
        }
      }
      ReachedIsCompleted(a, prefix);
      var g, h := path[|path| - 2], path[|path| - 1];
      assert Calls(a, g, h);
      var i :| 0 <= i < |FuncOps(a, g)| && FuncOps(a, g)[i] == FunctionCall(h);
      assert CalleesIn(a, g, Extraction(a).memo.Keys);
    }
  }

  /** `fn'` is `fn` with one parameter per global of `gs` appended, in order,
      typed like the global and numbered consecutively from an ID at least
      `bound`. */
  predicate GainsParams(fn: Function, fn': Function, vars: map<Id, Variable>, gs: seq<Id>, bound: nat)
    requires forall i :: 0 <= i < |gs| ==> gs[i] in vars
  {
    var n := |fn.params|;
    && |fn'.params| == n + |gs|
    && fn'.params[..n] == fn.params
    && (|gs| > 0 ==> fn'.params[n].id >= bound)
    && (forall i :: 0 <= i < |gs| ==> fn'.params[n + i] == Parameter(vars[gs[i]].basetype, fn'.params[n].id + i))
  }

  /** Appending the parameters built from `next` is gaining them. */
  lemma AppendedParamsGained(fn: Function, vars: map<Id, Variable>, gs: seq<Id>, next: Id, bound: nat)
    requires forall i :: 0 <= i < |gs| ==> gs[i] in vars
    requires next >= bound
    ensures GainsParams(fn, AppendParams(fn, ParamsFrom(vars, gs, next, 0)), vars, gs, bound)
  {
    ParamsFromIndex(vars, gs, next, 0);
    var fn' := AppendParams(fn, ParamsFrom(vars, gs, next, 0));
    assert fn'.params[..|fn.params|] == fn.params;
  }

  /** Every non-entry function the entry point reaches through calls gains,
      after its own parameters, one fresh parameter per global in its set. */
  lemma ReachedGainsParams(a: Arena, reserved: set<string>, path: seq<Id>)
    requires WellFormed(a) && CallPath(a, path) && path[0] == a.entryPoint && path[|path| - 1] != a.entryPoint
    ensures path[|path| - 1] in Extraction(a).memo
    ensures GainsParams(a.funcs[path[|path| - 1]], ExtractGlobalVariablesFromFunctions(a, reserved).funcs[path[|path| - 1]],
                        a.vars, ArgOrder(Extraction(a).memo[path[|path| - 1]], a), a.bound)
  {
    var f := path[|path| - 1];
    ReachedIsCompleted(a, path);
    var w := Extraction(a);
    assert f in Elements(w.finished);
    var k :| 0 <= k < |w.finished| && w.finished[k] == f;
    var lo := a.bound + Allocated(a.entryPoint, w.finished[..k], w.memo);
    ExtractGainsParams(a, reserved, w.finished, w.memo, k, lo);
    AppendedParamsGained(a.funcs[f], a.vars, ArgOrder(w.memo[f], a), lo, a.bound);
  }

  /** On an acyclic call graph, a reached non-entry function gains exactly
      one parameter per global of its reference set. */
  lemma ReachedGainsNeeds(a: Arena, reserved: set<string>, rank: map<Id, nat>, path: seq<Id>)
    requires WellFormed(a) && RankedCalls(a, rank)
    requires CallPath(a, path) && path[0] == a.entryPoint && path[|path| - 1] != a.entryPoint
    ensures Needs(a, GlobalVarIds(a), rank, path[|path| - 1]) <= a.vars.Keys
    ensures GainsParams(a.funcs[path[|path| - 1]], ExtractGlobalVariablesFromFunctions(a, reserved).funcs[path[|path| - 1]],
                        a.vars, ArgOrder(Needs(a, GlobalVarIds(a), rank, path[|path| - 1]), a), a.bound)
  {
    ReachedGainsParams(a, reserved, path);
    ExtractionNeeds(a, rank);
  }
}
