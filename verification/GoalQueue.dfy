/** Reordering the goal queue: pairs of a position and an item are placed first,
    and the other goals fill the free places in their old order. */
module GoalQueue {
  import opened Strings

  datatype Goal = Goal(id: string, objective: string)

  /** The zero value of a goal; its empty ID is what marks a free place. */
  const NO_GOAL := Goal("", "")

  datatype Pair = Pair(pos: int, idx: int)

  datatype Error = InvalidPosition | InvalidItem | ItemReused | Incomplete | BadToken

  datatype Result<T> = Ok(value: T) | Err(error: Error)

  // ----------------------------------------------------------- specification

  predicate InRange(goals: seq<Goal>, p: Pair) {
    1 <= p.pos <= |goals| && 0 <= p.idx < |goals|
  }

  predicate AllInRange(goals: seq<Goal>, pairs: seq<Pair>) {
    forall i :: 0 <= i < |pairs| ==> InRange(goals, pairs[i])
  }

  function Items(pairs: seq<Pair>): set<int> {
    set i | 0 <= i < |pairs| :: pairs[i].idx
  }

  /** Places taken, counted from 0. */
  function Places(pairs: seq<Pair>): set<int> {
    set i | 0 <= i < |pairs| :: pairs[i].pos - 1
  }

  predicate AllNamed(goals: seq<Goal>, pairs: seq<Pair>)
    requires AllInRange(goals, pairs)
  {
    forall i :: 0 <= i < |pairs| ==> goals[pairs[i].idx].id != ""
  }

  /** The elements whose index is not in `taken`, in order; `from` is the index of s[0]. */
  function Except(s: seq<Goal>, taken: set<int>, from: int): seq<Goal> {
    if s == [] then [] else (if from in taken then [] else [s[0]]) + Except(s[1..], taken, from + 1)
  }

  /** The goals placed by the pairs, with free places elsewhere. */
  function Placed(goals: seq<Goal>, pairs: seq<Pair>): (slots: seq<Goal>)
    requires AllInRange(goals, pairs)
    ensures |slots| == |goals|
  {
    if pairs == [] then seq(|goals|, i => NO_GOAL)
    else
      var last := pairs[|pairs| - 1];
      Placed(goals, pairs[..|pairs| - 1])[last.pos - 1 := goals[last.idx]]
  }

  /** Fills the free places from left to right. */
  function Filled(slots: seq<Goal>, remaining: seq<Goal>): (r: Result<seq<Goal>>)
    ensures r.Ok? ==> |r.value| == |slots|
    ensures r.Err? ==> r.error == Incomplete
  {
    if slots == [] then Ok([])
    else if slots[0].id != "" then
      match Filled(slots[1..], remaining)
      case Err(e) => Err(e)
      case Ok(rest) => Ok([slots[0]] + rest)
    else if remaining == [] then Err(Incomplete)
    else
      match Filled(slots[1..], remaining[1..])
      case Err(e) => Err(e)
      case Ok(rest) => Ok([remaining[0]] + rest)
  }

  /** The first complaint of the pair loop, if any. */
  function Complaint(goals: seq<Goal>, pairs: seq<Pair>): Result<()> {
    if pairs == [] then Ok(())
    else
      var before := pairs[..|pairs| - 1];
      var p := pairs[|pairs| - 1];
      if Complaint(goals, before).Err? then Complaint(goals, before)
      else if !(1 <= p.pos <= |goals|) then Err(InvalidPosition)
      else if !(0 <= p.idx < |goals|) then Err(InvalidItem)
      else if p.idx in Items(before) then Err(ItemReused)
      else Ok(())
  }

  function Reordered(goals: seq<Goal>, pairs: seq<Pair>): Result<seq<Goal>> {
    match Complaint(goals, pairs)
    case Err(e) => Err(e)
    case Ok(_) =>
      assert AllInRange(goals, pairs) by { ComplaintLaw(goals, pairs); }
      Filled(Placed(goals, pairs), Except(goals, Items(pairs), 0))
  }

  /** The pair loop accepts exactly the pairs in range that use no item twice. */
  lemma {:induction false} ComplaintLaw(goals: seq<Goal>, pairs: seq<Pair>)
    ensures Complaint(goals, pairs).Ok? <==> AllInRange(goals, pairs) && |Items(pairs)| == |pairs|
  {
    hide Items, Places;
    if pairs == [] {
      NoPairs();
    } else {
      var before, p := PairsLast(pairs);
      ComplaintLaw(goals, before);
      assert AllInRange(goals, pairs) <==> AllInRange(goals, before) && InRange(goals, p);
    }
  }

  lemma ItemsAppend(pairs: seq<Pair>, p: Pair)
    ensures Items(pairs + [p]) == Items(pairs) + {p.idx}
    ensures Places(pairs + [p]) == Places(pairs) + {p.pos - 1}
    ensures |Items(pairs + [p])| == |Items(pairs)| + if p.idx in Items(pairs) then 0 else 1
    ensures |Places(pairs + [p])| == |Places(pairs)| + if p.pos - 1 in Places(pairs) then 0 else 1
  {
    SetsAppend(pairs, p);
    hide Items, Places;
    assert p.idx in Items(pairs) ==> Items(pairs) + {p.idx} == Items(pairs);
    assert p.pos - 1 in Places(pairs) ==> Places(pairs) + {p.pos - 1} == Places(pairs);
  }

  lemma SetsAppend(pairs: seq<Pair>, p: Pair)
    ensures Items(pairs + [p]) == Items(pairs) + {p.idx}
    ensures Places(pairs + [p]) == Places(pairs) + {p.pos - 1}
  {
    var all := pairs + [p];
    assert all[|pairs|] == p;
    assert forall i :: 0 <= i < |pairs| ==> all[i] == pairs[i];
    assert forall x :: x in Items(pairs) ==> x in Items(all);
    assert forall x :: x in Places(pairs) ==> x in Places(all);
    assert p.idx in Items(all) && p.pos - 1 in Places(all);
  }

  lemma NoPairs()
    ensures Items([]) == {} && Places([]) == {}
  {
  }

  lemma PairNames(pairs: seq<Pair>, k: nat)
    requires k < |pairs|
    ensures pairs[k].idx in Items(pairs) && pairs[k].pos - 1 in Places(pairs)
  {
  }

  lemma {:induction false} ItemsAtMost(pairs: seq<Pair>)
    ensures |Items(pairs)| <= |pairs| && |Places(pairs)| <= |pairs|
  {
    hide Items, Places;
    if pairs == [] {
      NoPairs();
    } else {
      ItemsAtMost(pairs[..|pairs| - 1]);
      ItemsAppend(pairs[..|pairs| - 1], pairs[|pairs| - 1]);
      assert pairs[..|pairs| - 1] + [pairs[|pairs| - 1]] == pairs;
    }
  }

  // ----------------------------------------------------------------- the code

  method ApplyReorderPairs(goals: seq<Goal>, pairs: seq<Pair>) returns (r: Result<seq<Goal>>)
    ensures r.Ok? <==> Reordered(goals, pairs).Ok?
    ensures r.Ok? ==> r == Reordered(goals, pairs)
    ensures r.Err? ==> r.error == Reordered(goals, pairs).error
  {
    hide Filled, Except, Items, Placed, Complaint;
    var result := new Goal[|goals|](_ => NO_GOAL);
    var used: set<int> := {};
    NothingPlaced(goals);
    assert pairs[..0] == [];
    for k := 0 to |pairs|
      invariant fresh(result) && result.Length == |goals|
      invariant AllInRange(goals, pairs[..k]) && Complaint(goals, pairs[..k]).Ok?
      invariant used == Items(pairs[..k])
      invariant result[..] == Placed(goals, pairs[..k])
    {
      var p := pairs[k];
      PairStep(goals, pairs, k);
      if !(1 <= p.pos <= |goals|) {
        return Err(InvalidPosition);
      }
      if !(0 <= p.idx < |goals|) {
        return Err(InvalidItem);
      }
      if p.idx in used {
        return Err(ItemReused);
      }
      used := used + {p.idx};
      result[p.pos - 1] := goals[p.idx];
    }
    assert pairs[..|pairs|] == pairs;
    r := FillRemainingPositions(result, goals, used);
  }

  lemma NothingPlaced(goals: seq<Goal>)
    ensures Placed(goals, []) == seq(|goals|, i => NO_GOAL)
    ensures Complaint(goals, []).Ok? && Items([]) == {}
  {
  }

  /** One turn of the pair loop. */
  lemma PairStep(goals: seq<Goal>, pairs: seq<Pair>, k: nat)
    requires k < |pairs| && AllInRange(goals, pairs[..k]) && Complaint(goals, pairs[..k]).Ok?
    ensures Items(pairs[..k + 1]) == Items(pairs[..k]) + {pairs[k].idx}
    ensures !(1 <= pairs[k].pos <= |goals|) ==> Complaint(goals, pairs) == Err(InvalidPosition)
    ensures 1 <= pairs[k].pos <= |goals| && !(0 <= pairs[k].idx < |goals|) ==>
              Complaint(goals, pairs) == Err(InvalidItem)
    ensures InRange(goals, pairs[k]) && pairs[k].idx in Items(pairs[..k]) ==> Complaint(goals, pairs) == Err(ItemReused)
    ensures InRange(goals, pairs[k]) && pairs[k].idx !in Items(pairs[..k]) ==>
              && AllInRange(goals, pairs[..k + 1]) && Complaint(goals, pairs[..k + 1]).Ok?
              && Placed(goals, pairs[..k + 1]) == Placed(goals, pairs[..k])[pairs[k].pos - 1 := goals[pairs[k].idx]]
  {
    hide Items, Complaint, Placed;
    var upto := pairs[..k + 1];
    assert upto == pairs[..k] + [pairs[k]];
    ItemsAppend(pairs[..k], pairs[k]);
    ComplaintSnoc(goals, pairs[..k], pairs[k]);
    if Complaint(goals, upto).Err? {
      ComplaintStays(goals, pairs, k + 1);
    }
  }

  lemma ComplaintSnoc(goals: seq<Goal>, before: seq<Pair>, p: Pair)
    requires AllInRange(goals, before) && Complaint(goals, before).Ok?
    ensures Complaint(goals, before + [p])
            == if !(1 <= p.pos <= |goals|) then Err(InvalidPosition)
               else if !(0 <= p.idx < |goals|) then Err(InvalidItem)
               else if p.idx in Items(before) then Err(ItemReused)
               else Ok(())
    ensures InRange(goals, p) ==>
              && AllInRange(goals, before + [p])
              && Placed(goals, before + [p]) == Placed(goals, before)[p.pos - 1 := goals[p.idx]]
  {
    hide Items;
    assert (before + [p])[..|before|] == before && (before + [p])[|before|] == p;
  }

  lemma {:induction false} ComplaintStays(goals: seq<Goal>, pairs: seq<Pair>, k: nat)
    requires k <= |pairs| && Complaint(goals, pairs[..k]).Err?
    ensures Complaint(goals, pairs) == Complaint(goals, pairs[..k])
  {
    hide Items;
    if k < |pairs| {
      assert pairs[..|pairs| - 1][..k] == pairs[..k];
      ComplaintStays(goals, pairs[..|pairs| - 1], k);
    } else {
      assert pairs[..k] == pairs;
    }
  }

  method Unused(goals: seq<Goal>, used: set<int>) returns (remaining: seq<Goal>)
    ensures remaining == Except(goals, used, 0)
  {
    remaining := [];
    for i := 0 to |goals|
      invariant remaining + Except(goals[i..], used, i) == Except(goals, used, 0)
    {
      assert goals[i..][1..] == goals[i + 1..];
      if i !in used {
        remaining := remaining + [goals[i]];
      }
    }
  }

  method FillRemainingPositions(result: array<Goal>, goals: seq<Goal>, used: set<int>)
      returns (r: Result<seq<Goal>>)
    modifies result
    ensures r == Filled(old(result[..]), Except(goals, used, 0))
  {
    var remaining := Unused(goals, used);
    ghost var slots := result[..];
    hide Filled, Prepended, Except;
    var nextRemaining := 0;
    FillStart(slots, remaining);
    for i := 0 to result.Length
      invariant nextRemaining <= |remaining|
      invariant result[i..] == slots[i..]
      invariant Filled(slots, remaining) == Prepended(result[..i], Filled(slots[i..], remaining[nextRemaining..]))
    {
      ghost var front := result[..i];
      FillStep(front, slots, i, remaining[nextRemaining..]);
      assert slots[i..][0] == result[i];
      if result[i].id != "" {
        assert result[..i + 1] == front + [result[i]];
        continue;
      }
      if nextRemaining >= |remaining| {
        return Err(Incomplete);
      }
      assert remaining[nextRemaining..][1..] == remaining[nextRemaining + 1..];
      result[i] := remaining[nextRemaining];
      nextRemaining := nextRemaining + 1;
      assert result[..i + 1] == front + [result[i]];
    }
    FillEnd(result[..], slots, remaining[nextRemaining..]);
    assert result[..result.Length] == result[..];
    r := Ok(result[..]);
  }

  function Prepended(front: seq<Goal>, r: Result<seq<Goal>>): Result<seq<Goal>> {
    match r case Err(e) => Err(e) case Ok(rest) => Ok(front + rest)
  }

  lemma FillStart(slots: seq<Goal>, remaining: seq<Goal>)
    ensures Filled(slots, remaining) == Prepended([], Filled(slots[0..], remaining[0..]))
  {
    assert slots[0..] == slots && remaining[0..] == remaining;
    assert Filled(slots, remaining).Ok? ==> [] + Filled(slots, remaining).value == Filled(slots, remaining).value;
  }

  lemma FillStep(front: seq<Goal>, slots: seq<Goal>, i: nat, rest: seq<Goal>)
    requires i < |slots|
    ensures Prepended(front, Filled(slots[i..], rest))
            == if slots[i].id != "" then Prepended(front + [slots[i]], Filled(slots[i + 1..], rest))
               else if rest == [] then Err(Incomplete)
               else Prepended(front + [rest[0]], Filled(slots[i + 1..], rest[1..]))
  {
    assert slots[i..][1..] == slots[i + 1..] && slots[i..][0] == slots[i];
    var tail := Filled(slots[i + 1..], if slots[i].id != "" || rest == [] then rest else rest[1..]);
    if tail.Ok? {
      var g := if slots[i].id != "" || rest == [] then slots[i] else rest[0];
      assert front + ([g] + tail.value) == front + [g] + tail.value;
    }
  }

  lemma FillEnd(front: seq<Goal>, slots: seq<Goal>, rest: seq<Goal>)
    ensures Prepended(front, Filled(slots[|slots|..], rest)) == Ok(front)
  {
    assert front + [] == front;
  }

  // --------------------------------------------------------- free places, counted

  function Free(slots: seq<Goal>): nat {
    if slots == [] then 0 else (if slots[0].id == "" then 1 else 0) + Free(slots[1..])
  }

  function Named(slots: seq<Goal>): seq<Goal> {
    if slots == [] then [] else (if slots[0].id == "" then [] else [slots[0]]) + Named(slots[1..])
  }

  /** Filling succeeds exactly when there are enough goals, and keeps the named
      places as they are. */
  lemma {:induction false} FillLaw(slots: seq<Goal>, remaining: seq<Goal>)
    ensures Filled(slots, remaining).Ok? <==> Free(slots) <= |remaining|
    ensures Filled(slots, remaining).Ok? ==>
              forall i :: 0 <= i < |slots| && slots[i].id != "" ==> Filled(slots, remaining).value[i] == slots[i]
  {
    if slots == [] {
    } else {
      var rest := if slots[0].id != "" || remaining == [] then remaining else remaining[1..];
      FillLaw(slots[1..], rest);
      assert forall i :: 0 < i < |slots| ==> slots[i] == slots[1..][i - 1];
    }
  }

  /** With as many goals as free places, each goal is used once. */
  lemma {:induction false} FillUsesAll(slots: seq<Goal>, remaining: seq<Goal>)
    requires Free(slots) == |remaining|
    ensures Filled(slots, remaining).Ok?
    ensures multiset(Filled(slots, remaining).value) == multiset(Named(slots)) + multiset(remaining)
  {
    hide Filled, Named;
    FilledCons(slots, remaining);
    NamedCons(slots);
    if slots == [] {
    } else {
      var named := slots[0].id != "";
      var rest := if named then remaining else remaining[1..];
      FillUsesAll(slots[1..], rest);
      if !named {
        MultisetCons(remaining[0], rest);
        assert remaining == [remaining[0]] + rest;
        Regroup(multiset(Named(slots[1..])), multiset(rest), multiset{remaining[0]});
      } else {
        Regroup(multiset(Named(slots[1..])), multiset(rest), multiset{slots[0]});
      }
    }
  }

  lemma Regroup(a: multiset<Goal>, b: multiset<Goal>, x: multiset<Goal>)
    ensures x + (a + b) == (x + a) + b == a + (x + b) == (a + b) + x == a + (b + x)
    ensures multiset{} + a == a
  {
  }

  lemma FilledCons(slots: seq<Goal>, remaining: seq<Goal>)
    requires Free(slots) == |remaining|
    ensures if slots == [] then Filled(slots, remaining) == Ok([]) && remaining == []
            else
              var named := slots[0].id != "";
              (named || remaining != []) &&
              var tail := Filled(slots[1..], if named then remaining else remaining[1..]);
              Free(slots[1..]) == (if named then |remaining| else |remaining| - 1) &&
              (tail.Ok? ==>
                && Filled(slots, remaining).Ok?
                && multiset(Filled(slots, remaining).value)
                   == multiset{if named then slots[0] else remaining[0]} + multiset(tail.value))
  {
    if slots != [] {
      var named := slots[0].id != "";
      var tail := Filled(slots[1..], if named then remaining else remaining[1..]);
      if tail.Ok? {
        MultisetCons(if named then slots[0] else remaining[0], tail.value);
      }
    }
  }

  lemma NamedCons(slots: seq<Goal>)
    ensures if slots == [] then Named(slots) == []
            else multiset(Named(slots))
                 == (if slots[0].id == "" then multiset{} else multiset{slots[0]}) + multiset(Named(slots[1..]))
  {
    if slots != [] {
      assert [] + Named(slots[1..]) == Named(slots[1..]);
      MultisetCons(slots[0], Named(slots[1..]));
    }
  }

  lemma MultisetCons(g: Goal, s: seq<Goal>)
    ensures multiset([g] + s) == multiset{g} + multiset(s)
  {
  }

  lemma SetSlot(slots: seq<Goal>, i: nat, g: Goal)
    requires i < |slots|
    ensures Free(slots[i := g])
            == Free(slots) - (if slots[i].id == "" then 1 else 0) + (if g.id == "" then 1 else 0)
    ensures slots[i].id == "" && g.id != "" ==>
              multiset(Named(slots[i := g])) == multiset(Named(slots)) + multiset{g}
  {
    hide Free, Named;
    SetSlotFree(slots, i, g);
    if slots[i].id == "" && g.id != "" {
      SetSlotNamed(slots, i, g);
    }
  }

  lemma {:induction false} SetSlotFree(slots: seq<Goal>, i: nat, g: Goal)
    requires i < |slots|
    ensures Free(slots[i := g])
            == Free(slots) - (if slots[i].id == "" then 1 else 0) + (if g.id == "" then 1 else 0)
  {
    if i == 0 {
      assert slots[0 := g][1..] == slots[1..];
    } else {
      SetSlotFree(slots[1..], i - 1, g);
      assert slots[i := g][1..] == slots[1..][i - 1 := g];
    }
  }

  lemma {:induction false} SetSlotNamed(slots: seq<Goal>, i: nat, g: Goal)
    requires i < |slots| && slots[i].id == "" && g.id != ""
    ensures multiset(Named(slots[i := g])) == multiset(Named(slots)) + multiset{g}
  {
    hide Named;
    NamedCons(slots);
    NamedCons(slots[i := g]);
    var rest := multiset(Named(slots[1..]));
    if i == 0 {
      assert slots[0 := g][1..] == slots[1..];
      Regroup(rest, multiset{}, multiset{g});
    } else {
      SetSlotNamed(slots[1..], i - 1, g);
      assert slots[i := g][1..] == slots[1..][i - 1 := g];
      Regroup(rest, multiset{g}, if slots[0].id == "" then multiset{} else multiset{slots[0]});
    }
  }

  lemma {:induction false} AllFree(n: nat)
    ensures var slots := seq(n, i => NO_GOAL); Free(slots) == n && Named(slots) == []
  {
    if n == 0 {
    } else {
      AllFree(n - 1);
      assert seq(n, i => NO_GOAL)[1..] == seq(n - 1, i => NO_GOAL);
    }
  }

  lemma {:induction false} ExceptLength(s: seq<Goal>, taken: set<int>, from: int)
    requires forall i :: i in taken ==> from <= i < from + |s|
    ensures |Except(s, taken, from)| == |s| - |taken|
  {
    if s == [] {
      assert forall i :: i in taken ==> from <= i < from;
      assert taken == {};
    } else {
      ExceptIgnores(s[1..], taken, from + 1);
      ExceptLength(s[1..], taken - {from}, from + 1);
    }
  }

  /** Indices below the range make no difference. */
  lemma {:induction false} ExceptIgnores(s: seq<Goal>, taken: set<int>, from: int)
    ensures Except(s, taken - {from - 1}, from) == Except(s, taken, from)
  {
    ExceptAgree(s, taken - {from - 1}, taken, from);
  }

  lemma {:induction false} ExceptAgree(s: seq<Goal>, a: set<int>, b: set<int>, from: int)
    requires forall i :: from <= i < from + |s| ==> (i in a <==> i in b)
    ensures Except(s, a, from) == Except(s, b, from)
  {
    if s == [] {
    } else {
      ExceptAgree(s[1..], a, b, from + 1);
    }
  }

  lemma ExceptCons(s: seq<Goal>, taken: set<int>, from: int)
    requires s != []
    ensures multiset(Except(s, taken, from))
            == (if from in taken then multiset{} else multiset{s[0]}) + multiset(Except(s[1..], taken, from + 1))
  {
    var rest := Except(s[1..], taken, from + 1);
    assert [] + rest == rest;
    MultisetCons(s[0], rest);
  }

  lemma {:induction false} ExceptTake(s: seq<Goal>, taken: set<int>, i: int, from: int)
    requires from <= i < from + |s| && i !in taken
    ensures multiset(Except(s, taken, from)) == multiset(Except(s, taken + {i}, from)) + multiset{s[i - from]}
  {
    hide Except;
    ExceptCons(s, taken, from);
    ExceptCons(s, taken + {i}, from);
    var rest := multiset(Except(s[1..], taken + {i}, from + 1));
    if i == from {
      ExceptAgree(s[1..], taken, taken + {i}, from + 1);
      Regroup(rest, multiset{}, multiset{s[0]});
    } else {
      ExceptTake(s[1..], taken, i, from + 1);
      assert s[1..][i - (from + 1)] == s[i - from];
      Regroup(rest, multiset{s[i - from]}, if from in taken then multiset{} else multiset{s[0]});
    }
  }

  lemma PairsLast(pairs: seq<Pair>) returns (before: seq<Pair>, p: Pair)
    requires pairs != []
    ensures before == pairs[..|pairs| - 1] && p == pairs[|pairs| - 1]
    ensures |Items(before)| <= |before| && |Places(before)| <= |before|
    ensures Items(pairs) == Items(before) + {p.idx}
    ensures Places(pairs) == Places(before) + {p.pos - 1}
    ensures |Items(pairs)| == |Items(before)| + if p.idx in Items(before) then 0 else 1
    ensures |Places(pairs)| == |Places(before)| + if p.pos - 1 in Places(before) then 0 else 1
  {
    before, p := pairs[..|pairs| - 1], pairs[|pairs| - 1];
    assert before + [p] == pairs;
    ItemsAppend(before, p);
    ItemsAtMost(before);
  }

  /** What k pairs can have done to the slots: at least n - k are free, and exactly
      that many when the k places differ and every placed goal has a name. */
  predicate Tight(slots: seq<Goal>, k: nat, places: set<int>, named: bool) {
    && |places| <= k
    && Free(slots) >= |slots| - k
    && (Free(slots) == |slots| - k <==> |places| == k && named)
    && (Free(slots) == |slots| - k ==> forall i :: 0 <= i < |slots| ==> (slots[i].id != "" <==> i in places))
  }

  lemma TightStep(slots: seq<Goal>, k: nat, places: set<int>, named: bool, i: nat, g: Goal)
    requires Tight(slots, k, places, named) && i < |slots|
    ensures Tight(slots[i := g], k + 1, places + {i}, named && g.id != "")
  {
    hide Free;
    SetSlot(slots, i, g);
    assert i in places ==> places + {i} == places;
    assert i !in places ==> |places + {i}| == |places| + 1;
    assert slots[i].id == "" || g.id != "" ==> Free(slots[i := g]) <= Free(slots);
  }

  lemma NoPairsTight(goals: seq<Goal>)
    ensures Tight(Placed(goals, []), 0, Places([]), AllNamed(goals, []))
  {
    NoPairs();
    AllFree(|goals|);
  }

  lemma {:induction false} PlacedTight(goals: seq<Goal>, pairs: seq<Pair>)
    requires AllInRange(goals, pairs)
    ensures Tight(Placed(goals, pairs), |pairs|, Places(pairs), AllNamed(goals, pairs))
  {
    hide Places, AllNamed, Tight;
    if pairs == [] {
      NoPairsTight(goals);
    } else {
      var before, p := PairsLast(pairs);
      assert before + [p] == pairs;
      NamedLast(goals, before, p);
      PlacedTight(goals, before);
      TightStep(Placed(goals, before), |before|, Places(before), AllNamed(goals, before), p.pos - 1, goals[p.idx]);
    }
  }

  /** The pigeonhole: k pairs leave at least n - k places free, and exactly that
      many when no place is given twice and every placed goal has a name. */
  lemma PlacedLaw(goals: seq<Goal>, pairs: seq<Pair>)
    requires AllInRange(goals, pairs)
    ensures Free(Placed(goals, pairs)) >= |goals| - |pairs|
    ensures Free(Placed(goals, pairs)) == |goals| - |pairs|
            <==> |Places(pairs)| == |pairs| && AllNamed(goals, pairs)
    ensures Free(Placed(goals, pairs)) == |goals| - |pairs| ==>
              forall i :: 0 <= i < |goals| ==> (Placed(goals, pairs)[i].id != "" <==> i in Places(pairs))
  {
    hide Placed, Free, Places, AllNamed;
    PlacedTight(goals, pairs);
  }

  lemma NamedLast(goals: seq<Goal>, before: seq<Pair>, p: Pair)
    requires AllInRange(goals, before + [p])
    ensures AllInRange(goals, before) && InRange(goals, p)
    ensures AllNamed(goals, before + [p]) <==> AllNamed(goals, before) && goals[p.idx].id != ""
  {
    var all := before + [p];
    assert all[|before|] == p;
    assert forall i :: 0 <= i < |before| ==> all[i] == before[i];
  }

  /** With no place given twice, every pair finds its goal in its place. */
  lemma {:induction false} PlacedAt(goals: seq<Goal>, pairs: seq<Pair>, k: nat)
    requires AllInRange(goals, pairs) && |Places(pairs)| == |pairs| && k < |pairs|
    ensures Placed(goals, pairs)[pairs[k].pos - 1] == goals[pairs[k].idx]
    decreases |pairs|
  {
    hide Items, Places;
    var before, p := PairsLast(pairs);
    if k < |before| {
      PlacedAt(goals, before, k);
      PairNames(before, k);
    }
  }

  /** Placed goals and left-over goals together are the queue. */
  lemma {:induction false} PlacedMultiset(goals: seq<Goal>, pairs: seq<Pair>)
    requires AllInRange(goals, pairs) && |Items(pairs)| == |pairs|
    requires |Places(pairs)| == |pairs| && AllNamed(goals, pairs)
    ensures multiset(Named(Placed(goals, pairs))) + multiset(Except(goals, Items(pairs), 0)) == multiset(goals)
  {
    hide Items, Places, Named, Except, Free;
    if pairs == [] {
      AllFree(|goals|);
      ExceptNothing(goals, 0);
      NoPairs();
    } else {
      var before, p := PairsLast(pairs);
      assert AllNamed(goals, before);
      PlacedMultiset(goals, before);
      PlacedStep(goals, before, p);
      assert before + [p] == pairs;
      ExceptTake(goals, Items(before), p.idx, 0);
      assert goals[p.idx - 0] == goals[p.idx];
      Regroup(multiset(Named(Placed(goals, before))), multiset(Except(goals, Items(pairs), 0)), multiset{goals[p.idx]});
    }
  }

  /** Putting a named goal in a place not given before. */
  lemma PlacedStep(goals: seq<Goal>, before: seq<Pair>, p: Pair)
    requires AllInRange(goals, before) && AllInRange(goals, before + [p]) && InRange(goals, p)
    requires AllNamed(goals, before) && goals[p.idx].id != ""
    requires |Places(before)| == |before| && p.pos - 1 !in Places(before)
    ensures multiset(Named(Placed(goals, before + [p])))
            == multiset(Named(Placed(goals, before))) + multiset{goals[p.idx]}
  {
    hide Places, Named, Free, Placed;
    PlacedSnoc(goals, before, p);
    PlacedLaw(goals, before);
    FillOne(Placed(goals, before), p.pos - 1, goals[p.idx]);
  }

  lemma FillOne(slots: seq<Goal>, i: nat, g: Goal)
    requires i < |slots| && slots[i].id == "" && g.id != ""
    ensures multiset(Named(slots[i := g])) == multiset(Named(slots)) + multiset{g}
  {
    hide Named, Free;
    SetSlot(slots, i, g);
  }

  lemma PlacedSnoc(goals: seq<Goal>, before: seq<Pair>, p: Pair)
    requires AllInRange(goals, before) && AllInRange(goals, before + [p]) && InRange(goals, p)
    ensures Placed(goals, before + [p]) == Placed(goals, before)[p.pos - 1 := goals[p.idx]]
  {
    assert (before + [p])[..|before|] == before && (before + [p])[|before|] == p;
  }

  lemma {:induction false} ExceptNothing(s: seq<Goal>, from: int)
    ensures Except(s, {}, from) == s
  {
    if s == [] {
    } else {
      ExceptNothing(s[1..], from + 1);
    }
  }

  /** The goals that land in the free places are the left-over ones, in order. */
  lemma {:induction false} FillKeepsOrder(slots: seq<Goal>, remaining: seq<Goal>, taken: set<int>, from: int)
    requires Free(slots) == |remaining|
    requires forall i :: 0 <= i < |slots| ==> (slots[i].id != "" <==> from + i in taken)
    ensures Filled(slots, remaining).Ok? && Except(Filled(slots, remaining).value, taken, from) == remaining
  {
    FillLaw(slots, remaining);
    if slots == [] {
    } else {
      var rest := if slots[0].id != "" then remaining else remaining[1..];
      assert forall i :: 0 <= i < |slots[1..]| ==> slots[1..][i] == slots[i + 1];
      FillKeepsOrder(slots[1..], rest, taken, from + 1);
      var r := Filled(slots, remaining).value;
      assert r[1..] == Filled(slots[1..], rest).value;
      assert from + 0 in taken <==> slots[0].id != "";
    }
  }

  // ------------------------------------------------------------- main theorems

  /** When a reorder succeeds: every pair in range, no item and no position used
      twice, and every item that is moved has a non-empty ID. */
  lemma ReorderSucceedsIff(goals: seq<Goal>, pairs: seq<Pair>)
    ensures Reordered(goals, pairs).Ok? <==>
              && AllInRange(goals, pairs)
              && |Items(pairs)| == |pairs| && |Places(pairs)| == |pairs|
              && AllNamed(goals, pairs)
  {
    ComplaintLaw(goals, pairs);
    if AllInRange(goals, pairs) && |Items(pairs)| == |pairs| {
      PlacedLaw(goals, pairs);
      FillLaw(Placed(goals, pairs), Except(goals, Items(pairs), 0));
      ExceptLength(goals, Items(pairs), 0);
    }
  }

  /** A successful reorder is a permutation that puts every item at its position
      and keeps the other goals in their relative order. */
  lemma ReorderIsPermutation(goals: seq<Goal>, pairs: seq<Pair>)
    requires Reordered(goals, pairs).Ok?
    ensures var r := Reordered(goals, pairs).value;
            && multiset(r) == multiset(goals)
            && |r| == |goals|
            && AllInRange(goals, pairs)
            && (forall k :: 0 <= k < |pairs| ==> r[pairs[k].pos - 1] == goals[pairs[k].idx])
            && Except(r, Places(pairs), 0) == Except(goals, Items(pairs), 0)
  {
    hide Filled, Free, Placed, Except;
    ReorderSucceedsIff(goals, pairs);
    var slots := Placed(goals, pairs);
    var remaining := Except(goals, Items(pairs), 0);
    PlacedLaw(goals, pairs);
    PlacedMultiset(goals, pairs);
    ExceptLength(goals, Items(pairs), 0);
    FillLaw(slots, remaining);
    FillUsesAll(slots, remaining);
    FillKeepsOrder(slots, remaining, Places(pairs), 0);
    forall k | 0 <= k < |pairs|
      ensures Reordered(goals, pairs).value[pairs[k].pos - 1] == goals[pairs[k].idx]
    {
      PlacedAt(goals, pairs, k);
      assert pairs[k].pos - 1 in Places(pairs);
    }
  }

  lemma {:induction false} ExceptDetermines(a: seq<Goal>, b: seq<Goal>, taken: set<int>, from: int)
    requires |a| == |b| && Except(a, taken, from) == Except(b, taken, from)
    requires forall i :: 0 <= i < |a| && from + i in taken ==> a[i] == b[i]
    ensures a == b
  {
    if a == [] {
    } else {
      assert from + 0 in taken ==> a[0] == b[0];
      var ra, rb := Except(a[1..], taken, from + 1), Except(b[1..], taken, from + 1);
      if from in taken {
        assert [] + ra == ra && [] + rb == rb;
      } else {
        assert ([a[0]] + ra)[1..] == ra && ([b[0]] + rb)[1..] == rb;
        assert ([a[0]] + ra)[0] == a[0] && ([b[0]] + rb)[0] == b[0];
      }
      forall i | 0 <= i < |a| - 1 && from + 1 + i in taken
        ensures a[1..][i] == b[1..][i]
      {
        assert from + (i + 1) in taken;
      }
      ExceptDetermines(a[1..], b[1..], taken, from + 1);
      assert a == [a[0]] + a[1..] && b == [b[0]] + b[1..];
    }
  }

  /** The order of the pairs does not matter: the sort before they are applied
      decides neither success nor the result. */
  lemma PairOrderDoesNotMatter(goals: seq<Goal>, a: seq<Pair>, b: seq<Pair>)
    requires multiset(a) == multiset(b)
    ensures Reordered(goals, a).Ok? <==> Reordered(goals, b).Ok?
    ensures Reordered(goals, a).Ok? ==> Reordered(goals, a) == Reordered(goals, b)
  {
    hide Reordered, Except, Items, Places;
    SamePairs(a, b);
    SamePairs(b, a);
    assert |a| == |multiset(a)| == |multiset(b)| == |b|;
    assert Items(a) == Items(b) && Places(a) == Places(b);
    ReorderSucceedsIff(goals, a);
    ReorderSucceedsIff(goals, b);
    if Reordered(goals, a).Ok? && Reordered(goals, b).Ok? {
      ReorderIsPermutation(goals, a);
      ReorderIsPermutation(goals, b);
      var ra, rb := Reordered(goals, a).value, Reordered(goals, b).value;
      forall i | 0 <= i < |goals| && 0 + i in Places(a)
        ensures ra[i] == rb[i]
      {
        var k := PairAt(a, i);
        assert a[k] in b;
        var j :| 0 <= j < |b| && b[j] == a[k];
        assert ra[a[k].pos - 1] == goals[a[k].idx] && rb[b[j].pos - 1] == goals[b[j].idx];
      }
      ExceptDetermines(ra, rb, Places(a), 0);
    }
  }

  lemma PairAt(pairs: seq<Pair>, place: int) returns (k: int)
    requires place in Places(pairs)
    ensures 0 <= k < |pairs| && pairs[k].pos - 1 == place
  {
    k :| 0 <= k < |pairs| && pairs[k].pos - 1 == place;
  }

  lemma SamePairs(a: seq<Pair>, b: seq<Pair>)
    requires multiset(a) == multiset(b)
    ensures Items(a) <= Items(b) && Places(a) <= Places(b)
    ensures forall i :: 0 <= i < |a| ==> a[i] in b
  {
    forall i | 0 <= i < |a| ensures a[i] in b {
      assert a[i] in multiset(b);
    }
  }

  /** A repeated position is always rejected. */
  lemma RepeatedPositionRejected(goals: seq<Goal>, pairs: seq<Pair>, i: nat, j: nat)
    requires i < j < |pairs| && pairs[i].pos == pairs[j].pos
    ensures Reordered(goals, pairs).Err?
  {
    hide Reordered, AllInRange, AllNamed;
    ReorderSucceedsIff(goals, pairs);
    RepeatedPlace(pairs, i, j);
  }

  lemma {:induction false} RepeatedPlace(pairs: seq<Pair>, i: nat, j: nat)
    requires i < j < |pairs| && pairs[i].pos == pairs[j].pos
    ensures |Places(pairs)| < |pairs|
  {
    hide Items, Places;
    var before, p := PairsLast(pairs);
    if j < |before| {
      RepeatedPlace(before, i, j);
    } else {
      PairNames(before, i);
    }
  }

  // ------------------------------------------------------- the textual mapping

  function WithoutSpaces(s: string): string {
    if s == "" then "" else (if s[0] == ' ' then "" else [s[0]]) + WithoutSpaces(s[1..])
  }

  /** strings.Split at commas; always at least one part. */
  function SplitCommas(s: string): (parts: seq<string>)
    ensures |parts| >= 1
  {
    if s == "" then [""]
    else
      var rest := SplitCommas(s[1..]);
      if s[0] == ',' then [""] + rest else [[s[0]] + rest[0]] + rest[1..]
  }

  const TWO64 := 0x1_0000_0000_0000_0000

  /** A Go int on a 64-bit machine. */
  function Wrap64(n: int): (r: int)
    ensures -TWO64 / 2 <= r < TWO64 / 2
  {
    (n + TWO64 / 2) % TWO64 - TWO64 / 2
  }

  predicate IsDigits(s: string) {
    forall i :: 0 <= i < |s| ==> '0' <= s[i] <= '9'
  }

  function DecimalValue(digits: string): nat
    requires IsDigits(digits)
  {
    if digits == "" then 0
    else DecimalValue(digits[..|digits| - 1]) * 10 + (digits[|digits| - 1] - '0') as int
  }

  /** A token is digits and a capital letter. The number is taken as a Go int, so
      one of twenty digits or more stands for its remainder. */
  function TokenPair(part: string): Result<Pair> {
    if |part| < 2 then Err(BadToken)
    else
      var digits := part[..|part| - 1];
      var letter := part[|part| - 1];
      if !IsDigits(digits) || !('A' <= letter <= 'Z') then Err(BadToken)
      else Ok(Pair(Wrap64(DecimalValue(digits)), (letter - 'A') as int))
  }

  function TokenPairs(parts: seq<string>): (r: Result<seq<Pair>>)
    ensures r.Ok? ==> |r.value| == |parts|
  {
    if parts == [] then Ok([])
    else
      match TokenPairs(parts[..|parts| - 1])
      case Err(e) => Err(e)
      case Ok(before) =>
        match TokenPair(parts[|parts| - 1])
        case Err(e) => Err(e)
        case Ok(p) => Ok(before + [p])
  }

  function MappingPairs(mapping: string): Result<seq<Pair>> {
    var text := WithoutSpaces(mapping);
    if text == "" then Ok([]) else TokenPairs(SplitCommas(text))
  }

  lemma WrapStep(n: int, d: int)
    ensures Wrap64(Wrap64(Wrap64(n) * 10) + d) == Wrap64(n * 10 + d)
  {
    var k := (n + TWO64 / 2) / TWO64;
    assert Wrap64(n) == n - k * TWO64;
    var j := (Wrap64(n) * 10 + TWO64 / 2) / TWO64;
    assert Wrap64(Wrap64(n) * 10) == Wrap64(n) * 10 - j * TWO64;
    WrapMultiple(n * 10 + d, -10 * k - j);
  }

  lemma WrapMultiple(n: int, k: int)
    ensures Wrap64(n + k * TWO64) == Wrap64(n)
  {
    var q := (n + TWO64 / 2) / TWO64;
    var r := (n + TWO64 / 2) % TWO64;
    assert n + k * TWO64 + TWO64 / 2 == (q + k) * TWO64 + r;
  }

  lemma {:induction false} TokensStay(parts: seq<string>, k: nat)
    requires k <= |parts| && TokenPairs(parts[..k]).Err?
    ensures TokenPairs(parts) == Err(TokenPairs(parts[..k]).error)
  {
    if k < |parts| {
      assert parts[..|parts| - 1][..k] == parts[..k];
      TokensStay(parts[..|parts| - 1], k);
    } else {
      assert parts[..k] == parts;
    }
  }

  /** The inner loop of the parser. */
  method ParseToken(part: string) returns (r: Result<Pair>)
    ensures r == TokenPair(part)
  {
    hide Wrap64;
    if |part| < 2 {
      return Err(BadToken);
    }
    assert Wrap64(0) == 0 by {
      WrapZero();
    }
    var pos := 0;
    for i := 0 to |part| - 1
      invariant IsDigits(part[..i]) && pos == Wrap64(DecimalValue(part[..i]))
    {
      if part[i] < '0' || part[i] > '9' {
        assert part[..|part| - 1][i] == part[i];
        return Err(BadToken);
      }
      assert part[..i + 1][..i] == part[..i];
      WrapStep(DecimalValue(part[..i]), (part[i] - '0') as int);
      pos := Wrap64(Wrap64(pos * 10) + (part[i] - '0') as int);
    }
    var letter := part[|part| - 1];
    if letter < 'A' || letter > 'Z' {
      return Err(BadToken);
    }
    r := Ok(Pair(pos, (letter - 'A') as int));
  }

  lemma WrapZero()
    ensures Wrap64(0) == 0
  {
  }

  /** The parser; `sort` stands for sort.Slice by position. */
  method ParseReorderMapping(mapping: string, sort: seq<Pair> -> seq<Pair>) returns (r: Result<seq<Pair>>)
    ensures match MappingPairs(mapping)
            case Err(e) => r == Err(e)
            case Ok(pairs) => r == Ok(if pairs == [] then [] else sort(pairs))
  {
    hide TokenPair, SplitCommas, WithoutSpaces;
    var text := WithoutSpaces(mapping);
    if text == "" {
      return Ok([]);
    }
    var parts := SplitCommas(text);
    var pairs: seq<Pair> := [];
    for k := 0 to |parts|
      invariant TokenPairs(parts[..k]) == Ok(pairs)
    {
      assert parts[..k + 1][..k] == parts[..k];
      var token := ParseToken(parts[k]);
      if token.Err? {
        TokensStay(parts, k + 1);
        return Err(token.error);
      }
      pairs := pairs + [token.value];
    }
    assert parts[..|parts|] == parts;
    r := Ok(sort(pairs));
  }

  // ------------------------------------------------- which texts mean which pairs

  function Digit(n: nat): char
    requires n < 10
  {
    '0' + n as char
  }

  function Digits(n: nat): string {
    if n < 10 then [Digit(n)] else Digits(n / 10) + [Digit(n % 10)]
  }

  /** A pair that a token can write: a position that fits an int, one of 26 letters. */
  predicate Writable(p: Pair) {
    0 <= p.pos < TWO64 / 2 && 0 <= p.idx < 26
  }

  function Token(p: Pair): string
    requires Writable(p)
  {
    Digits(p.pos) + ['A' + p.idx as char]
  }

  /** The pairs as a user writes them, separated by commas. */
  function Printed(pairs: seq<Pair>): string
    requires pairs != [] && forall i :: 0 <= i < |pairs| ==> Writable(pairs[i])
  {
    var n := |pairs| - 1;
    if n == 0 then Token(pairs[0]) else Printed(pairs[..n]) + "," + Token(pairs[n])
  }

  lemma {:induction false} DigitsValue(n: nat)
    ensures IsDigits(Digits(n)) && Digits(n) != "" && DecimalValue(Digits(n)) == n
  {
    if n < 10 {
      assert Digits(n)[..0] == "";
    } else {
      DigitsValue(n / 10);
      assert Digits(n)[..|Digits(n)| - 1] == Digits(n / 10);
    }
  }

  lemma TokenParses(p: Pair)
    requires Writable(p)
    ensures TokenPair(Token(p)) == Ok(p)
    ensures forall c :: c in Token(p) ==> c != ','
  {
    DigitsValue(p.pos);
    var token := Token(p);
    assert token[..|token| - 1] == Digits(p.pos);
    forall c | c in token ensures c != ',' {
      var i :| 0 <= i < |token| && token[i] == c;
      assert i < |token| - 1 ==> token[i] == Digits(p.pos)[i];
    }
  }

  lemma {:induction false} SplitAtLastComma(a: string, b: string)
    requires forall c :: c in b ==> c != ','
    ensures SplitCommas(b) == [b]
    ensures SplitCommas(a + "," + b) == SplitCommas(a) + [b]
    decreases |a|
  {
    NoCommaNoSplit(b);
    var whole := a + "," + b;
    if a == "" {
      assert whole[0] == ',' && whole[1..] == b;
    } else {
      SplitAtLastComma(a[1..], b);
      assert whole[1..] == a[1..] + "," + b && whole[0] == a[0];
    }
  }

  lemma {:induction false} NoCommaNoSplit(b: string)
    requires forall c :: c in b ==> c != ','
    ensures SplitCommas(b) == [b]
  {
    if b == "" {
    } else {
      assert b == [b[0]] + b[1..] && b[0] in b;
      assert forall c :: c in b[1..] ==> c in b;
      NoCommaNoSplit(b[1..]);
      assert [b[0]] + b[1..] == b && [b[1..]][1..] == [];
    }
  }

  lemma {:induction false} PrintedParses(pairs: seq<Pair>)
    requires pairs != [] && forall i :: 0 <= i < |pairs| ==> Writable(pairs[i])
    ensures TokenPairs(SplitCommas(Printed(pairs))) == Ok(pairs)
    ensures Printed(pairs) != ""
  {
    hide TokenPair, Token, SplitCommas;
    var n := |pairs| - 1;
    TokenParses(pairs[n]);
    if n == 0 {
      NoCommaNoSplit(Token(pairs[0]));
      OneToken(Token(pairs[0]), pairs[0]);
      assert [pairs[0]] == pairs;
    } else {
      PrintedParses(pairs[..n]);
      SplitAtLastComma(Printed(pairs[..n]), Token(pairs[n]));
      MoreTokens(SplitCommas(Printed(pairs[..n])), Token(pairs[n]), pairs[..n], pairs[n]);
      assert pairs[..n] + [pairs[n]] == pairs;
    }
  }

  lemma OneToken(token: string, p: Pair)
    requires TokenPair(token) == Ok(p)
    ensures TokenPairs([token]) == Ok([p]) && token != ""
  {
    assert [token][..0] == [] && [] + [p] == [p];
  }

  lemma MoreTokens(parts: seq<string>, token: string, pairs: seq<Pair>, p: Pair)
    requires TokenPairs(parts) == Ok(pairs) && TokenPair(token) == Ok(p)
    ensures TokenPairs(parts + [token]) == Ok(pairs + [p])
  {
    assert (parts + [token])[..|parts|] == parts;
  }

  /** Round trip: printed pairs parse to themselves ... */
  lemma MappingRoundTrip(pairs: seq<Pair>)
    requires pairs != [] && forall i :: 0 <= i < |pairs| ==> Writable(pairs[i])
    ensures MappingPairs(Printed(pairs)) == Ok(pairs)
  {
    PrintedParses(pairs);
    PrintedHasNoSpace(pairs);
    NothingToDrop(Printed(pairs));
  }

  /** ... and spaces make no difference, wherever they stand. */
  lemma SpacesDoNotMatter(a: string, b: string)
    ensures MappingPairs(a + " " + b) == MappingPairs(a + b)
  {
    SpaceIsDropped(a, b);
  }

  lemma {:induction false} SpaceIsDropped(a: string, b: string)
    ensures WithoutSpaces(a + " " + b) == WithoutSpaces(a + b)
  {
    var spaced := a + " " + b;
    if a == "" {
      assert spaced[0] == ' ' && spaced[1..] == b && a + b == b;
    } else {
      SpaceIsDropped(a[1..], b);
      assert spaced[0] == a[0] && spaced[1..] == a[1..] + " " + b;
      assert (a + b)[0] == a[0] && (a + b)[1..] == a[1..] + b;
    }
  }

  lemma {:induction false} NothingToDrop(s: string)
    requires forall i :: 0 <= i < |s| ==> s[i] != ' '
    ensures WithoutSpaces(s) == s
  {
    if s == "" {
    } else {
      NothingToDrop(s[1..]);
      assert [s[0]] + s[1..] == s;
    }
  }

  lemma {:induction false} PrintedHasNoSpace(pairs: seq<Pair>)
    requires pairs != [] && forall i :: 0 <= i < |pairs| ==> Writable(pairs[i])
    ensures forall i :: 0 <= i < |Printed(pairs)| ==> Printed(pairs)[i] != ' '
  {
    var n := |pairs| - 1;
    DigitsValue(pairs[n].pos);
    var token := Token(pairs[n]);
    assert forall i :: 0 <= i < |token| ==> token[i] != ' ';
    if n > 0 {
      PrintedHasNoSpace(pairs[..n]);
    }
  }

  /** A text is accepted exactly when it is blank or each of its parts is digits and a
      capital letter. */
  lemma AcceptedIff(mapping: string)
    ensures var text := WithoutSpaces(mapping);
            MappingPairs(mapping).Ok? <==>
              text == "" ||
              forall part :: part in SplitCommas(text) ==>
                && |part| >= 2 && 'A' <= part[|part| - 1] <= 'Z'
                && forall i :: 0 <= i < |part| - 1 ==> '0' <= part[i] <= '9'
  {
    var text := WithoutSpaces(mapping);
    if text != "" {
      TokensOkIff(SplitCommas(text));
      forall part | part in SplitCommas(text)
        ensures TokenPair(part).Ok? <==>
                  && |part| >= 2 && 'A' <= part[|part| - 1] <= 'Z'
                  && forall i :: 0 <= i < |part| - 1 ==> '0' <= part[i] <= '9'
      {
      }
    }
  }

  lemma {:induction false} TokensOkIff(parts: seq<string>)
    ensures TokenPairs(parts).Ok? <==> forall part :: part in parts ==> TokenPair(part).Ok?
  {
    hide TokenPair;
    if parts == [] {
    } else {
      var n := |parts| - 1;
      TokensOkIff(parts[..n]);
      assert parts == parts[..n] + [parts[n]];
    }
  }

  /** The parts are what stands between the commas. */
  lemma {:induction false} SplitLaw(s: string)
    ensures Joined(SplitCommas(s)) == s
    ensures forall part, c :: part in SplitCommas(s) && c in part ==> c != ','
  {
    hide Joined;
    if s == "" {
      JoinedOne("");
    } else {
      SplitLaw(s[1..]);
      var rest := SplitCommas(s[1..]);
      assert s == [s[0]] + s[1..];
      if s[0] == ',' {
        JoinedCons("", rest);
      } else {
        JoinedFirst([s[0]], rest);
        NoCommaInFirst(s[0], rest);
      }
    }
  }

  lemma NoCommaInFirst(first: char, rest: seq<string>)
    requires rest != [] && first != ',' && forall part, c :: part in rest && c in part ==> c != ','
    ensures forall part, c :: part in [[first] + rest[0]] + rest[1..] && c in part ==> c != ','
  {
    assert rest[0] in rest;
    assert forall part :: part in rest[1..] ==> part in rest;
    assert forall c :: c in [first] + rest[0] ==> c == first || c in rest[0];
  }

  function Joined(parts: seq<string>): string
    requires parts != []
    decreases |parts|
  {
    if |parts| == 1 then parts[0] else parts[0] + "," + Joined(parts[1..])
  }

  lemma JoinedCons(first: string, rest: seq<string>)
    requires rest != []
    ensures Joined([first] + rest) == first + "," + Joined(rest)
  {
    assert ([first] + rest)[1..] == rest;
  }

  lemma JoinedOne(part: string)
    ensures Joined([part]) == part
  {
  }

  lemma JoinedFirst(more: string, parts: seq<string>)
    requires parts != []
    ensures Joined([more + parts[0]] + parts[1..]) == more + Joined(parts)
  {
    hide Joined;
    var rest := parts[1..];
    assert [parts[0]] + rest == parts;
    if rest == [] {
      JoinedOne(parts[0]);
      JoinedOne(more + parts[0]);
      assert [more + parts[0]] + rest == [more + parts[0]] && [parts[0]] == parts;
    } else {
      JoinedCons(parts[0], rest);
      JoinedCons(more + parts[0], rest);
      Associate(more, parts[0], ",");
      Associate(more, parts[0] + ",", Joined(rest));
    }
  }

  function ReorderedByMapping(goals: seq<Goal>, mapping: string, sort: seq<Pair> -> seq<Pair>): Result<seq<Goal>> {
    if goals == [] then Ok([])
    else
      match MappingPairs(mapping)
      case Err(e) => Err(e)
      case Ok(pairs) => Reordered(goals, if pairs == [] then [] else sort(pairs))
  }

  /** What a user can rely on, however the pairs are sorted: the mapping is
      accepted exactly when its pairs are in range, name no item and no position
      twice, and move no goal without an ID; the queue is then permuted. */
  lemma MappingLaw(goals: seq<Goal>, mapping: string, sort: seq<Pair> -> seq<Pair>)
    requires goals != [] && MappingPairs(mapping).Ok?
    requires multiset(sort(MappingPairs(mapping).value)) == multiset(MappingPairs(mapping).value)
    ensures var pairs := MappingPairs(mapping).value;
            var r := ReorderedByMapping(goals, mapping, sort);
            && (r.Ok? <==> AllInRange(goals, pairs) && |Items(pairs)| == |pairs| && |Places(pairs)| == |pairs|
                           && AllNamed(goals, pairs))
            && (r.Ok? ==> r == Reordered(goals, pairs) && multiset(r.value) == multiset(goals))
  {
    hide MappingPairs, Reordered, Items, Places;
    var pairs := MappingPairs(mapping).value;
    if pairs != [] {
      PairOrderDoesNotMatter(goals, sort(pairs), pairs);
    }
    ReorderSucceedsIff(goals, pairs);
    if Reordered(goals, pairs).Ok? {
      ReorderIsPermutation(goals, pairs);
    }
  }

  /** An empty mapping leaves the queue as it is. */
  lemma EmptyMappingIsIdentity(goals: seq<Goal>)
    ensures Reordered(goals, []) == Ok(goals)
  {
    hide Filled, Placed;
    ReorderSucceedsIff(goals, []);
    ReorderIsPermutation(goals, []);
    NoPairs();
    ExceptNothing(goals, 0);
    ExceptNothing(Reordered(goals, []).value, 0);
  }
}
