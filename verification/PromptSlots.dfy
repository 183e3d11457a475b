/**
 * A system prompt assembled from slots under a token budget: slots that may be cut are cut, then
 * the least important are dropped until the rest fits.
 */
module PromptSlots {
  import opened Text
  import opened Wrappers

  datatype Slot = Slot(name: string, priority: int, content: string, tokenBudget: Option<int>, truncateEnd: bool)

  datatype Decision = Decision(kept: bool, content: string)

  const SLOT_SEPARATOR := "\n\n"
  const TRUNCATION_NOTE := "\n\n[...truncated]"

  /** A token is about four characters. */
  function EstimateTokens(text: string): (n: nat)
    ensures 4 * n - 3 <= |text| <= 4 * n || (n == 0 && text == "")
  {
    (|text| + 3) / 4
  }

  function TruncateToTokens(content: string, maxTokens: int): string {
    if maxTokens <= 0 then ""
    else if |content| <= maxTokens * 4 then content
    else TrimEnd(content[..maxTokens * 4]) + TRUNCATION_NOTE
  }

  function Usable(slots: seq<Slot>): (r: seq<Slot>)
    ensures |r| <= |slots|
  {
    if slots == [] then []
    else if Trim(slots[0].content) != "" then [slots[0]] + Usable(slots[1..])
    else Usable(slots[1..])
  }

  /** The usable slots are those with more than white space in them, in the list's order. */
  ghost predicate UsableAt(slots: seq<Slot>, usable: seq<Slot>, at: seq<nat>) {
    && |at| == |usable| && (forall i, j :: 0 <= i < j < |at| ==> at[i] < at[j])
    && (forall i :: 0 <= i < |at| ==> at[i] < |slots| && usable[i] == slots[at[i]])
    && (forall k: nat :: k in at <==> k < |slots| && HasText(slots[k]))
  }

  lemma {:induction false} UsableMeans(slots: seq<Slot>) returns (at: seq<nat>)
    ensures UsableAt(slots, Usable(slots), at)
    decreases |slots|
  {
    hide Trim, HasText, UsableAt, Usable;
    if slots == [] {
      at := [];
      NoneUsable();
    } else {
      var front, last := slots[..|slots| - 1], slots[|slots| - 1];
      at := UsableMeans(front);
      BlankTrims(last);
      UsableAppend(front, last);
      assert front + [last] == slots;
      UsableMore(slots, Usable(front), at);
      if HasText(last) {
        at := at + [|slots| - 1];
      }
    }
  }

  lemma NoneUsable()
    ensures UsableAt([], Usable([]), [])
  {
  }

  lemma {:induction false} UsableAppend(slots: seq<Slot>, slot: Slot)
    ensures Usable(slots + [slot]) == Usable(slots) + if Trim(slot.content) != "" then [slot] else []
    decreases |slots|
  {
    hide Trim;
    if slots == [] {
      assert [] + [slot] == [slot] && [slot][1..] == [];
    } else {
      assert (slots + [slot])[1..] == slots[1..] + [slot];
      UsableAppend(slots[1..], slot);
    }
  }

  lemma UsableMore(slots: seq<Slot>, usable: seq<Slot>, at: seq<nat>)
    requires slots != [] && UsableAt(slots[..|slots| - 1], usable, at)
    ensures var last := slots[|slots| - 1];
            if HasText(last) then UsableAt(slots, usable + [last], at + [|slots| - 1])
            else UsableAt(slots, usable + [], at)
  {
    hide HasText;
    var front := slots[..|slots| - 1];
    assert forall k :: 0 <= k < |front| ==> front[k] == slots[k];
    assert forall i :: 0 <= i < |at| ==> at[i] in at;
  }

  /** More than white space. */
  ghost predicate HasText(slot: Slot) {
    exists c :: c in slot.content && !IsSpace(c)
  }

  lemma BlankTrims(slot: Slot)
    ensures Trim(slot.content) != "" <==> HasText(slot)
  {
    var s := slot.content;
    hide IsSpace, TrimStart, TrimEnd;
    TrimStartStops(s);
    TrimEndStops(TrimStart(s));
    if Trim(s) != "" {
      assert Trim(s)[|Trim(s)| - 1] in s;
    }
    if c :| c in s && !IsSpace(c) {
      var i :| 0 <= i < |s| && s[i] == c;
      assert i >= |s| - |TrimStart(s)|;
      assert TrimStart(s)[i - (|s| - |TrimStart(s)|)] == c;
    }
  }

  predicate NoMargin(s: string) {
    s != "" && !IsSpace(s[0]) && !IsSpace(s[|s| - 1])
  }

  lemma NotBlank(s: string)
    requires NoMargin(s)
    ensures Trim(s) != ""
  {
    TrimNothing(s);
  }

  /** Slots with text at both ends are all usable. */
  lemma {:induction false} UsableAll(slots: seq<Slot>)
    requires forall i :: 0 <= i < |slots| ==> NoMargin(slots[i].content)
    ensures Usable(slots) == slots
  {
    hide NoMargin, Trim;
    if slots != [] {
      NotBlank(slots[0].content);
      UsableAll(slots[1..]);
      assert slots == [slots[0]] + slots[1..];
    }
  }

  // ----- Least important first -----

  /** Slot `i` comes before slot `j`: lower priority, or the same and earlier in the list. */
  predicate Sooner(slots: seq<Slot>, i: nat, j: nat)
    requires i < |slots| && j < |slots|
  {
    slots[i].priority < slots[j].priority || (slots[i].priority == slots[j].priority && i < j)
  }

  predicate Indexes(order: seq<nat>, slots: seq<Slot>) {
    forall k :: 0 <= k < |order| ==> order[k] < |slots|
  }

  ghost predicate InOrder(order: seq<nat>, slots: seq<Slot>)
    requires Indexes(order, slots)
  {
    forall a, b :: 0 <= a < b < |order| ==> Sooner(slots, order[a], order[b])
  }

  function Insert(slots: seq<Slot>, i: nat, order: seq<nat>): (r: seq<nat>)
    requires i < |slots| && Indexes(order, slots)
    ensures Indexes(r, slots) && |r| == |order| + 1
    ensures forall j: nat :: j in r <==> j in order || j == i
  {
    if order == [] || Sooner(slots, i, order[0]) then [i] + order
    else
      var rest := Insert(slots, i, order[1..]);
      assert order == [order[0]] + order[1..];
      [order[0]] + rest
  }

  /** The first `n` slots, least important first. */
  function Order(slots: seq<Slot>, n: nat): (r: seq<nat>)
    requires n <= |slots|
    ensures Indexes(r, slots)
  {
    if n == 0 then [] else Insert(slots, n - 1, Order(slots, n - 1))
  }

  lemma {:induction false} InsertInOrder(slots: seq<Slot>, i: nat, order: seq<nat>)
    requires i < |slots| && Indexes(order, slots) && InOrder(order, slots) && i !in order
    ensures InOrder(Insert(slots, i, order), slots)
    decreases |order|
  {
    if order != [] && !Sooner(slots, i, order[0]) {
      var rest := Insert(slots, i, order[1..]);
      InsertInOrder(slots, i, order[1..]);
      assert order[0] in order;
      forall k | 0 <= k < |rest| ensures Sooner(slots, order[0], rest[k]) {
        assert rest[k] in rest;
        assert rest[k] == i || rest[k] in order[1..];
      }
    }
  }

  /** The order holds every slot exactly once, each before the more important ones. */
  lemma {:induction false} OrderIsComplete(slots: seq<Slot>, n: nat)
    requires n <= |slots|
    ensures InOrder(Order(slots, n), slots) && |Order(slots, n)| == n
    ensures var order := Order(slots, n);
            forall a, b :: 0 <= a < b < n ==>
              && slots[order[a]].priority <= slots[order[b]].priority
              && (slots[order[a]].priority == slots[order[b]].priority ==> order[a] < order[b])
    ensures forall i: nat :: i in Order(slots, n) <==> i < n
    ensures forall a, b :: 0 <= a < b < n ==> Order(slots, n)[a] != Order(slots, n)[b]
  {
    if n > 0 {
      var before := Order(slots, n - 1);
      OrderIsComplete(slots, n - 1);
      InsertInOrder(slots, n - 1, before);
      var order := Order(slots, n);
    }
  }

  // ----- Totals -----

  function Total(decisions: seq<Decision>): nat {
    if decisions == [] then 0
    else (if decisions[0].kept then EstimateTokens(decisions[0].content) else 0) + Total(decisions[1..])
  }

  function AllIn(slots: seq<Slot>): (r: seq<Decision>)
    ensures |r| == |slots|
    ensures forall i :: 0 <= i < |r| ==> r[i] == Decision(true, slots[i].content)
  {
    if slots == [] then [] else [Decision(true, slots[0].content)] + AllIn(slots[1..])
  }

  /** The decisions with these slots dropped. */
  function Dropped(decisions: seq<Decision>, gone: seq<nat>): (r: seq<Decision>)
    requires forall k :: 0 <= k < |gone| ==> gone[k] < |decisions|
    ensures |r| == |decisions|
    ensures forall i :: 0 <= i < |r| ==> r[i] == if i in gone then Decision(false, "") else decisions[i]
  {
    if gone == [] then decisions
    else
      var g, rest := gone[|gone| - 1], gone[..|gone| - 1];
      assert gone == rest + [g];
      Dropped(decisions, rest)[g := Decision(false, "")]
  }

  lemma DropNothing(decisions: seq<Decision>)
    ensures Dropped(decisions, []) == decisions
  {
  }

  lemma {:induction false} NothingIncluded(decisions: seq<Decision>)
    requires forall i :: 0 <= i < |decisions| ==> !decisions[i].kept
    ensures Total(decisions) == 0
    decreases |decisions|
  {
    if decisions != [] {
      NothingIncluded(decisions[1..]);
    }
  }

  // ----- The two passes -----

  /** What the slot is cut to, when it may be and that makes it shorter: its own cap, or the room the others leave. */
  function CutTo(slot: Slot, budget: int, decisions: seq<Decision>): Option<string> {
    var left := budget - Total(decisions) + EstimateTokens(slot.content);
    var cut := TruncateToTokens(slot.content, slot.tokenBudget.GetOr(if left > 0 then left else 0));
    if slot.truncateEnd && |cut| < |slot.content| then Some(cut) else None
  }

  /** The first pass over the rest of the order: slots are cut in turn until the whole fits. */
  function FirstPass(slots: seq<Slot>, order: seq<nat>, budget: int, decisions: seq<Decision>, truncated: seq<nat>)
    : (seq<Decision>, seq<nat>)
    requires Indexes(order, slots) && |decisions| == |slots|
    decreases |order|
  {
    if order == [] || Total(decisions) <= budget then (decisions, truncated)
    else
      match CutTo(slots[order[0]], budget, decisions)
      case None => FirstPass(slots, order[1..], budget, decisions, truncated)
      case Some(cut) =>
        FirstPass(slots, order[1..], budget, decisions[order[0] := Decision(true, cut)], truncated + [order[0]])
  }

  /** The states the first pass goes through, one for each slot of the order it comes to. */
  ghost predicate PassStates(
    slots: seq<Slot>, order: seq<nat>, budget: int, states: seq<seq<Decision>>, truncated: seq<nat>, n: nat)
    requires Indexes(order, slots)
  {
    && n <= |order| && |states| == n + 1 && (forall k :: 0 <= k <= n ==> |states[k]| == |slots|)
    && (forall k :: 0 <= k < n ==>
          Total(states[k]) > budget && states[k + 1] == CutStep(slots, order[k], budget, states[k]))
    && (n < |order| ==> Total(states[n]) <= budget)
    && (forall idx: nat :: idx in truncated <==>
          exists k :: 0 <= k < n && order[k] == idx && CutTo(slots[idx], budget, states[k]).Some?)
  }

  /**
   * The first pass comes to the slots of the order one after another, those that cannot be cut
   * included, and stops at the first state that fits or at the end of the order.
   */
  lemma {:induction false} PassGoesOn(
    slots: seq<Slot>, order: seq<nat>, budget: int, decisions: seq<Decision>)
    returns (states: seq<seq<Decision>>, n: nat, truncated: seq<nat>)
    requires Indexes(order, slots) && |decisions| == |slots|
    ensures PassStates(slots, order, budget, states, truncated, n) && states[0] == decisions
    ensures forall before :: FirstPass(slots, order, budget, decisions, before) == (states[n], before + truncated)
    decreases |order|
  {
    hide Total, CutTo;
    if order == [] || Total(decisions) <= budget {
      states, n, truncated := [decisions], 0, [];
      assert forall before: seq<nat> :: before + [] == before;
    } else {
      var idx := order[0];
      var next := CutStep(slots, idx, budget, decisions);
      var later, m, cut := PassGoesOn(slots, order[1..], budget, next);
      var here := if CutTo(slots[idx], budget, decisions).Some? then [idx] else [];
      states, n, truncated := [decisions] + later, m + 1, here + cut;
      forall before
        ensures FirstPass(slots, order, budget, decisions, before) == (states[n], before + truncated)
      {
        assert (before + here) + cut == before + (here + cut);
        assert before + [] == before;
      }
      StatesMore(slots, order, budget, decisions, later, cut, m, here);
    }
  }

  lemma StatesMore(
    slots: seq<Slot>, order: seq<nat>, budget: int, decisions: seq<Decision>, later: seq<seq<Decision>>,
    cut: seq<nat>, m: nat, here: seq<nat>)
    requires Indexes(order, slots) && order != [] && |decisions| == |slots| && Total(decisions) > budget
    requires PassStates(slots, order[1..], budget, later, cut, m)
    requires later[0] == CutStep(slots, order[0], budget, decisions)
    requires here == if CutTo(slots[order[0]], budget, decisions).Some? then [order[0]] else []
    ensures PassStates(slots, order, budget, [decisions] + later, here + cut, m + 1)
  {
    hide Total, CutTo;
    var states := [decisions] + later;
    forall idx: nat
      ensures idx in here + cut <==>
              exists k :: 0 <= k < m + 1 && order[k] == idx && CutTo(slots[idx], budget, states[k]).Some?
    {
      if k :| 0 <= k < m && order[1..][k] == idx && CutTo(slots[idx], budget, later[k]).Some? {
        assert order[k + 1] == idx && states[k + 1] == later[k];
      }
      if k :| 0 <= k < m + 1 && order[k] == idx && CutTo(slots[idx], budget, states[k]).Some? {
        assert k > 0 ==> order[1..][k - 1] == idx && later[k - 1] == states[k];
      }
    }
  }

  /**
   * A slot is cut to its own cap or to the room the others leave, and only if that makes it shorter:
   * to nothing where there is no room, else to a beginning without white space at its end, of at most
   * four characters for each token, and the note.
   */
  lemma CutText(slot: Slot, budget: int, decisions: seq<Decision>)
    ensures var left := RoomLeft(slot, budget, decisions);
            var cap := match slot.tokenBudget
                       case Some(own) => own
                       case None => if left > 0 then left else 0;
            match CutTo(slot, budget, decisions)
            case None => !slot.truncateEnd || slot.content == "" || |slot.content| <= 4 * cap
                         || |TrimEnd(slot.content[..4 * cap])| + 17 >= |slot.content|
            case Some(cut) =>
              slot.truncateEnd && |cut| < |slot.content|
              && if cap <= 0 then cut == ""
                 else exists n :: 0 <= n <= 4 * cap < |slot.content| && cut == slot.content[..n] + "\n\n[...truncated]"
                                  && (n > 0 ==> !IsSpace(cut[n - 1]))
                                  && forall k :: n <= k < 4 * cap ==> IsSpace(slot.content[k])
  {
    hide Total, EstimateTokens, IsSpace, TrimEnd;
    var left := RoomLeft(slot, budget, decisions);
    var cap := slot.tokenBudget.GetOr(if left > 0 then left else 0);
    if cap > 0 && |slot.content| > 4 * cap {
      TrimEndStops(slot.content[..4 * cap]);
      var n := |TrimEnd(slot.content[..4 * cap])|;
      assert slot.content[..4 * cap][..n] == slot.content[..n];
    }
  }

  /** The loop of the first pass. */
  method TruncateSlots(slots: seq<Slot>, order: seq<nat>, budget: int)
    returns (decisions: seq<Decision>, truncated: seq<nat>)
    requires Indexes(order, slots)
    ensures (decisions, truncated) == FirstPass(slots, order, budget, AllIn(slots), [])
    ensures |decisions| == |slots|
  {
    hide EstimateTokens, TruncateToTokens, Total;
    decisions, truncated := AllIn(slots), [];
    assert order[0..] == order;
    var k := 0;
    while k < |order|
      invariant 0 <= k <= |order| && |decisions| == |slots|
      invariant FirstPass(slots, order, budget, AllIn(slots), [])
                == FirstPass(slots, order[k..], budget, decisions, truncated)
    {
      if Total(decisions) <= budget {
        break;
      }
      var idx := order[k];
      var slot := slots[idx];
      assert order[k..][0] == idx && order[k..][1..] == order[k + 1..];
      k := k + 1;
      if !slot.truncateEnd {
        continue;
      }
      var left := budget - Total(decisions) + EstimateTokens(slot.content);
      var cap := slot.tokenBudget.GetOr(if left > 0 then left else 0);
      var cut := TruncateToTokens(slot.content, cap);
      if |cut| < |slot.content| {
        decisions := decisions[idx := Decision(true, cut)];
        truncated := truncated + [idx];
      }
    }
    assert k == |order| ==> order[k..] == [];
  }

  /** A slot is in, as it was or, where it may be, cut to something shorter. */
  predicate CutOrWhole(d: Decision, slot: Slot) {
    d.kept && (d.content == slot.content || (slot.truncateEnd && |d.content| < |slot.content|))
  }

  /** The first pass drops nothing and cuts only what it reports, and nothing at all when everything fits. */
  lemma {:induction false} FirstPassCuts(
    slots: seq<Slot>, order: seq<nat>, budget: int, decisions: seq<Decision>, truncated: seq<nat>)
    requires Indexes(order, slots) && |decisions| == |slots|
    requires forall i :: 0 <= i < |slots| ==> CutOrWhole(decisions[i], slots[i])
    requires forall i: nat :: i < |slots| && i !in truncated ==> decisions[i].content == slots[i].content
    ensures var (after, cut) := FirstPass(slots, order, budget, decisions, truncated);
            && |after| == |slots|
            && (forall i :: 0 <= i < |slots| ==> CutOrWhole(after[i], slots[i]))
            && (forall i: nat :: i < |slots| && i !in cut ==> after[i].content == slots[i].content)
            && (Total(decisions) <= budget ==> after == decisions && cut == truncated)
    decreases |order|
  {
    hide EstimateTokens, TruncateToTokens, Total;
    if order != [] && Total(decisions) > budget {
      match CutTo(slots[order[0]], budget, decisions)
      case None => FirstPassCuts(slots, order[1..], budget, decisions, truncated);
      case Some(cut) =>
        FirstPassCuts(slots, order[1..], budget, decisions[order[0] := Decision(true, cut)], truncated + [order[0]]);
    }
  }

  /** Drops the least important slots one by one until the rest fits. */
  method DropSlots(decided: seq<Decision>, order: seq<nat>, budget: nat)
    returns (decisions: seq<Decision>, dropped: seq<nat>)
    requires forall k :: 0 <= k < |order| ==> order[k] < |decided|
    requires forall i: nat :: i in order <==> i < |decided|
    requires forall a, b :: 0 <= a < b < |order| ==> order[a] != order[b]
    requires forall i :: 0 <= i < |decided| ==> decided[i].kept
    ensures dropped <= order && decisions == Dropped(decided, dropped)
    ensures Total(decisions) <= budget
    ensures forall k :: 0 <= k < |dropped| ==> Total(Dropped(decided, order[..k])) > budget
  {
    hide EstimateTokens, Total;
    decisions, dropped := decided, [];
    var k := 0;
    while k < |order|
      invariant 0 <= k <= |order| && dropped == order[..k]
      invariant decisions == Dropped(decided, order[..k])
      invariant forall j :: 0 <= j < k ==> Total(Dropped(decided, order[..j])) > budget
    {
      if Total(decisions) <= budget {
        return decisions, dropped;
      }
      var idx := order[k];
      k := k + 1;
      assert order[..k][..|order[..k]| - 1] == order[..k - 1] && order[..k] == order[..k - 1] + [idx];
      if !decisions[idx].kept {
        assert false;
        continue;
      }
      decisions := decisions[idx := Decision(false, "")];
      dropped := dropped + [idx];
    }
    assert order[..k] == order;
    NothingIncluded(decisions);
  }

  // ----- The result -----

  function Included(decisions: seq<Decision>, from: nat): (r: seq<nat>)
    requires from <= |decisions|
    ensures forall i: nat :: i in r <==> from <= i < |decisions| && decisions[i].kept
    ensures forall a, b :: 0 <= a < b < |r| ==> r[a] < r[b]
    decreases |decisions| - from
  {
    if from == |decisions| then []
    else
      var rest := Included(decisions, from + 1);
      assert forall a :: 0 <= a < |rest| ==> rest[a] in rest;
      if decisions[from].kept then [from] + rest else rest
  }

  function Parts(decisions: seq<Decision>): seq<string> {
    if decisions == [] then []
    else if decisions[0].kept then [decisions[0].content] + Parts(decisions[1..])
    else Parts(decisions[1..])
  }

  function SumTokens(parts: seq<string>): nat {
    if parts == [] then 0 else EstimateTokens(parts[0]) + SumTokens(parts[1..])
  }

  datatype Assembled = Assembled(
    systemPrompt: string, included: seq<nat>, dropped: seq<nat>, truncated: seq<nat>, estimatedTokens: nat)

  lemma {:induction false} PartsTotal(decisions: seq<Decision>)
    ensures SumTokens(Parts(decisions)) == Total(decisions)
    decreases |decisions|
  {
    hide EstimateTokens;
    if decisions != [] {
      PartsTotal(decisions[1..]);
    }
  }

  /** Joining adds two characters between parts, so at most half a token each to the estimates' sum. */
  lemma {:induction false} JoinedLength(parts: seq<string>)
    ensures |Join(parts, SLOT_SEPARATOR)| <= 4 * SumTokens(parts) + if parts == [] then 0 else 2 * (|parts| - 1)
    decreases |parts|
  {
    if |parts| > 1 {
      JoinedLength(parts[1..]);
    }
  }

  /** What the passes decided about the slots explains the result. */
  ghost predicate Explains(decided: seq<Decision>, slots: seq<Slot>, budgetTokens: Option<int>, r: Assembled) {
    && |decided| == |slots|
    && r.dropped <= Order(slots, |slots|)
    && (forall k :: 0 <= k < |r.dropped| ==> r.dropped[k] < |slots|)
    && (forall i: nat :: i in r.included <==> i < |slots| && i !in r.dropped)
    && (forall a, b :: 0 <= a < b < |r.included| ==> r.included[a] < r.included[b])
    && r.systemPrompt == Join(Parts(Dropped(decided, r.dropped)), SLOT_SEPARATOR)
    && r.estimatedTokens == EstimateTokens(r.systemPrompt)
    && if budgetTokens.Some? && budgetTokens.value > 0 then Budgeted(decided, slots, budgetTokens.value, r)
       else decided == AllIn(slots) && r.dropped == [] && r.truncated == []
  }

  /** Cut by the first pass, then kept within the budget by dropping no more than needed. */
  ghost predicate Budgeted(decided: seq<Decision>, slots: seq<Slot>, budget: int, r: Assembled)
    requires |decided| == |slots| && forall k :: 0 <= k < |r.dropped| ==> r.dropped[k] < |slots|
  {
    && (decided, r.truncated) == FirstPass(slots, Order(slots, |slots|), budget, AllIn(slots), [])
    && SumTokens(Parts(Dropped(decided, r.dropped))) <= budget
    && (forall k :: 0 <= k < |r.dropped| ==> SumTokens(Parts(Dropped(decided, r.dropped[..k]))) > budget)
  }

  /**
   * `assembleSystemPrompt`. Without a positive budget every usable slot is in, whole. With one,
   * the slots kept are all but the shortest sufficient prefix of the order from least to most
   * important; they stay in the list's order, and their estimates add up to the budget at most.
   */
  method AssembleSystemPrompt(all: seq<Slot>, budgetTokens: Option<int>) returns (r: Assembled)
    ensures exists decided :: Explains(decided, Usable(all), budgetTokens, r)
  {
    hide EstimateTokens, Total, Usable, Order, AllIn, Dropped, Parts, SumTokens, Join, Included, InOrder, FirstPass;
    var slots := Usable(all);
    var order := Order(slots, |slots|);
    OrderIsComplete(slots, |slots|);
    var decisions, truncated, dropped: seq<nat> := AllIn(slots), [], [];
    ghost var decided := decisions;
    if budgetTokens.Some? && budgetTokens.value > 0 {
      decisions, truncated := TruncateSlots(slots, order, budgetTokens.value);
      decided := decisions;
      FirstPassCuts(slots, order, budgetTokens.value, AllIn(slots), []);
      Whole(decisions, slots);
      decisions, dropped := DropSlots(decisions, order, budgetTokens.value);
      assert dropped == order[..|dropped|];
      forall k | 0 <= k < |dropped| ensures SumTokens(Parts(Dropped(decided, dropped[..k]))) > budgetTokens.value {
        assert dropped[..k] == order[..k];
        PartsTotal(Dropped(decided, order[..k]));
      }
      PartsTotal(decisions);
      PartsTotal(decided);
      DropNothing(decided);
      assert dropped[..0] == [];
    }
    DropNothing(decided);
    var prompt := Join(Parts(decisions), SLOT_SEPARATOR);
    r := Assembled(prompt, Included(decisions, 0), dropped, truncated, EstimateTokens(prompt));
    assert Explains(decided, slots, budgetTokens, r);
  }

  lemma Whole(decisions: seq<Decision>, slots: seq<Slot>)
    requires |decisions| == |slots|
    requires forall i :: 0 <= i < |slots| ==> CutOrWhole(decisions[i], slots[i])
    ensures forall i :: 0 <= i < |slots| ==> decisions[i].kept
  {
  }

  /** What fits is left alone: nothing is cut and nothing dropped. */
  lemma FitsIsUntouched(decided: seq<Decision>, slots: seq<Slot>, budget: nat, r: Assembled)
    requires budget > 0 && Explains(decided, slots, Some(budget), r)
    requires Total(AllIn(slots)) <= budget
    ensures decided == AllIn(slots) && r.truncated == [] && r.dropped == []
  {
    hide EstimateTokens, TruncateToTokens, Total, Order, Parts, SumTokens, Dropped;
    FirstPassCuts(slots, Order(slots, |slots|), budget, AllIn(slots), []);
    PartsTotal(decided);
    DropNothing(decided);
    assert r.dropped[..0] == [];
  }

  // ----- A cut slot and its note -----

  lemma {:induction false} TotalUpdate(decisions: seq<Decision>, idx: nat, content: string)
    requires idx < |decisions| && decisions[idx].kept
    ensures Total(decisions[idx := Decision(true, content)])
            == Total(decisions) - EstimateTokens(decisions[idx].content) + EstimateTokens(content)
    decreases idx
  {
    hide EstimateTokens;
    var after := decisions[idx := Decision(true, content)];
    if idx > 0 {
      TotalUpdate(decisions[1..], idx - 1, content);
      assert after[1..] == decisions[1..][idx - 1 := Decision(true, content)];
    } else {
      assert after[1..] == decisions[1..];
    }
  }

  lemma Tokens(text: string, limit: int)
    ensures EstimateTokens(text) <= limit <==> |text| <= 4 * limit
  {
  }

  /** One step of the first pass on the first slot of the order. */
  function CutStep(slots: seq<Slot>, idx: nat, budget: int, decisions: seq<Decision>): seq<Decision>
    requires idx < |slots| == |decisions|
  {
    match CutTo(slots[idx], budget, decisions)
    case None => decisions
    case Some(cut) => decisions[idx := Decision(true, cut)]
  }

  /** The tokens that slots other than this one leave of the budget. */
  function RoomLeft(slot: Slot, budget: int, decisions: seq<Decision>): int {
    budget - Total(decisions) + EstimateTokens(slot.content)
  }

  /**
   * A step makes everything fit exactly when the slot may be cut and what it is cut to, the note
   * included, fits the room the others leave.
   */
  lemma {:induction false} CutFits(slots: seq<Slot>, idx: nat, budget: int, decisions: seq<Decision>)
    requires idx < |slots| == |decisions| && decisions[idx] == Decision(true, slots[idx].content)
    requires Total(decisions) > budget
    ensures var (slot, left) := (slots[idx], RoomLeft(slots[idx], budget, decisions));
            Total(CutStep(slots, idx, budget, decisions)) <= budget <==>
              && slot.truncateEnd
              && |TruncateToTokens(slot.content, slot.tokenBudget.GetOr(if left > 0 then left else 0))| <= 4 * left
  {
    hide EstimateTokens, TruncateToTokens, Total;
    var (slot, left) := (slots[idx], RoomLeft(slots[idx], budget, decisions));
    var cut := TruncateToTokens(slot.content, slot.tokenBudget.GetOr(if left > 0 then left else 0));
    Tokens(slot.content, left);
    if slot.truncateEnd && |cut| < |slot.content| {
      TotalUpdate(decisions, idx, cut);
      Tokens(cut, left);
    }
  }

  /**
   * The note behind a cut is not counted in the room it is cut to. A slot without a cap of its own
   * therefore makes everything fit exactly when no room was needed, or the cut falls on enough
   * white space to make room for the note.
   */
  lemma {:induction false} NoteFits(slots: seq<Slot>, idx: nat, budget: int, decisions: seq<Decision>)
    requires idx < |slots| == |decisions| && decisions[idx] == Decision(true, slots[idx].content)
    requires Total(decisions) > budget
    requires slots[idx].truncateEnd && slots[idx].tokenBudget.None?
    ensures var (content, left) := (slots[idx].content, RoomLeft(slots[idx], budget, decisions));
            Total(CutStep(slots, idx, budget, decisions)) <= budget <==>
              if left <= 0 then left == 0
              else |content| > 4 * left && |TrimEnd(content[..4 * left])| + |TRUNCATION_NOTE| <= 4 * left
  {
    hide EstimateTokens, Total;
    var left := RoomLeft(slots[idx], budget, decisions);
    CutFits(slots, idx, budget, decisions);
    Tokens(slots[idx].content, left);
  }

  /**
   * A slot alone in the list, to be cut to the budget, is dropped altogether unless it fits whole
   * or the cut falls on enough white space to make room for the note.
   */
  lemma LoneSlot(slot: Slot, budget: nat, decided: seq<Decision>, r: Assembled)
    requires budget > 0 && slot.truncateEnd && slot.tokenBudget.None?
    requires Explains(decided, [slot], Some(budget), r)
    ensures r.dropped == [] <==>
              || |slot.content| <= 4 * budget
              || |TrimEnd(slot.content[..4 * budget])| + |TRUNCATION_NOTE| <= 4 * budget
    ensures r.dropped != [] ==> r.dropped == [0] && r.systemPrompt == ""
  {
    hide EstimateTokens;
    var slots := [slot];
    assert Order(slots, 1) == [0] by {
      assert Order(slots, 0) == [];
    }
    LoneCut(slot, budget);
    LoneParts(decided[0]);
    DropNothing(decided);
    if r.dropped != [] {
      assert r.dropped == [0] && r.dropped[..0] == [];
      assert Dropped(decided, r.dropped) == [Decision(false, "")];
      LoneParts(Decision(false, ""));
    }
  }

  lemma LoneCut(slot: Slot, budget: nat)
    requires budget > 0 && slot.truncateEnd && slot.tokenBudget.None?
    ensures var after := FirstPass([slot], [0], budget, AllIn([slot]), []).0;
            |after| == 1 && after[0].kept
            && (EstimateTokens(after[0].content) <= budget
                <==> || |slot.content| <= 4 * budget
                     || |TrimEnd(slot.content[..4 * budget])| + |TRUNCATION_NOTE| <= 4 * budget)
  {
    hide EstimateTokens;
    var start := AllIn([slot]);
    assert start == [Decision(true, slot.content)];
    LoneTotal(slot.content);
    Tokens(slot.content, budget);
    if Total(start) > budget {
      assert [0][1..] == [];
      var after := CutStep([slot], 0, budget, start);
      NoteFits([slot], 0, budget, start);
      assert FirstPass([slot], [0], budget, start, []).0 == after;
      assert after == [after[0]] == [Decision(true, after[0].content)];
      LoneTotal(after[0].content);
    }
  }

  lemma LoneTotal(content: string)
    ensures Total([Decision(true, content)]) == EstimateTokens(content)
  {
    var decisions := [Decision(true, content)];
    assert decisions[1..] == [];
  }

  lemma LoneParts(d: Decision)
    ensures Parts([d]) == if d.kept then [d.content] else []
    ensures SumTokens(Parts([d])) == if d.kept then EstimateTokens(d.content) else 0
  {
    assert [d][1..] == [];
    assert Parts([]) == [] && SumTokens([]) == 0;
  }

  /** Thirty letters under a budget of two tokens: cut to eight and the note, and then dropped for it. */
  lemma DroppedForItsNote(slot: Slot, decided: seq<Decision>, r: Assembled)
    requires slot.content == "abcdefghijklmnopqrstuvwxyz1234" && slot.truncateEnd && slot.tokenBudget.None?
    requires Explains(decided, Usable([slot]), Some(2), r)
    ensures r.dropped == [0] && r.systemPrompt == ""
  {
    hide Explains, Usable;
    UsableAll([slot]);
    LoneSlot(slot, 2, decided, r);
    assert slot.content[..8] == "abcdefgh" && TrimEnd("abcdefgh") == "abcdefgh";
  }

  // ----- The prompt's own estimate -----

  function SumLengths(parts: seq<string>): nat {
    if parts == [] then 0 else |parts[0]| + SumLengths(parts[1..])
  }

  lemma {:induction false} JoinLength(parts: seq<string>)
    requires parts != []
    ensures |Join(parts, SLOT_SEPARATOR)| == SumLengths(parts) + 2 * (|parts| - 1)
    decreases |parts|
  {
    if |parts| > 1 {
      JoinLength(parts[1..]);
    } else {
      assert parts[1..] == [];
    }
  }

  /**
   * The passes count each slot's own tokens and not the separators. The prompt they make is within
   * the budget, by the same estimate, exactly when the separators fit as well; it passes the
   * budget by half a token for each of them at most.
   */
  lemma PromptFits(decided: seq<Decision>, slots: seq<Slot>, budget: nat, r: Assembled)
    requires budget > 0 && Explains(decided, slots, Some(budget), r)
    ensures var parts := Parts(Dropped(decided, r.dropped));
            && (r.estimatedTokens <= budget <==> SumLengths(parts) + 2 * (|parts| - 1) <= 4 * budget)
            && r.estimatedTokens <= budget + |parts| / 2
  {
    hide Order, Parts, Dropped, FirstPass, AllIn, Join, EstimateTokens, SumTokens, SumLengths;
    var parts := Parts(Dropped(decided, r.dropped));
    Tokens(r.systemPrompt, budget);
    if parts != [] {
      JoinLength(parts);
      JoinedLength(parts);
      HalfATokenEach(r.systemPrompt, |parts|, budget);
    } else {
      EmptyPrompt();
    }
  }

  lemma HalfATokenEach(prompt: string, n: nat, budget: nat)
    requires n > 0 && |prompt| <= 4 * budget + 2 * (n - 1)
    ensures EstimateTokens(prompt) <= budget + n / 2
  {
  }

  lemma EmptyPrompt()
    ensures Join([], SLOT_SEPARATOR) == "" && SumLengths([]) == 0 && EstimateTokens("") == 0
  {
  }

  function Four(content: string): Slot {
    Slot(content, 0, content, None, false)
  }

  /** Two slots of one token each fit a budget of two and make a prompt of three. */
  lemma SeparatorsPassTheBudget(decided: seq<Decision>, r: Assembled)
    requires Explains(decided, Usable([Four("abcd"), Four("efgh")]), Some(2), r)
    ensures r.estimatedTokens == 3 && r.systemPrompt == "abcd\n\nefgh"
  {
    hide Order, FirstPass, AllIn, Dropped, Parts, Join, Total, SumTokens, Usable;
    var slots := [Four("abcd"), Four("efgh")];
    UsableAll(slots);
    TwoSlots("abcd", "efgh");
    FitsIsUntouched(decided, slots, 2, r);
    DropNothing(decided);
  }

  lemma TwoSlots(a: string, b: string)
    ensures var slots := [Four(a), Four(b)];
            && Total(AllIn(slots)) == EstimateTokens(a) + EstimateTokens(b)
            && Join(Parts(AllIn(slots)), SLOT_SEPARATOR) == a + "\n\n" + b
  {
    hide EstimateTokens;
    var decisions := [Decision(true, a), Decision(true, b)];
    assert AllIn([Four(a), Four(b)]) == decisions;
    assert decisions[1..] == [Decision(true, b)];
    LoneTotal(b);
    LoneParts(Decision(true, b));
    assert Parts(decisions) == [a, b] && [a, b][1..] == [b];
  }

  /** Every input has a result that the passes explain. */
  lemma ResultExists(all: seq<Slot>, budgetTokens: Option<int>) returns (decided: seq<Decision>, r: Assembled)
    ensures Explains(decided, Usable(all), budgetTokens, r)
  {
    hide EstimateTokens, Total, Usable, Order, AllIn, Dropped, Parts, SumTokens, Join, Included, InOrder, FirstPass;
    var slots := Usable(all);
    var order := Order(slots, |slots|);
    OrderIsComplete(slots, |slots|);
    var truncated, dropped: seq<nat> := [], [];
    decided := AllIn(slots);
    if budgetTokens.Some? && budgetTokens.value > 0 {
      var pass := FirstPass(slots, order, budgetTokens.value, decided, []);
      FirstPassCuts(slots, order, budgetTokens.value, decided, []);
      decided, truncated := pass.0, pass.1;
      Whole(decided, slots);
      var n := ShortestDrop(decided, order, budgetTokens.value, 0);
      dropped := order[..n];
      forall k | 0 <= k < n ensures SumTokens(Parts(Dropped(decided, dropped[..k]))) > budgetTokens.value {
        assert dropped[..k] == order[..k];
        PartsTotal(Dropped(decided, order[..k]));
      }
      PartsTotal(Dropped(decided, dropped));
    }
    var decisions := Dropped(decided, dropped);
    var prompt := Join(Parts(decisions), SLOT_SEPARATOR);
    r := Assembled(prompt, Included(decisions, 0), dropped, truncated, EstimateTokens(prompt));
  }

  lemma ShortestDrop(decided: seq<Decision>, order: seq<nat>, budget: int, k: nat) returns (n: nat)
    requires budget > 0 && k <= |order|
    requires forall i :: 0 <= i < |order| ==> order[i] < |decided|
    requires forall i: nat :: i in order <==> i < |decided|
    requires forall j :: 0 <= j < k ==> Total(Dropped(decided, order[..j])) > budget
    ensures n <= |order| && Total(Dropped(decided, order[..n])) <= budget
    ensures forall j :: 0 <= j < n ==> Total(Dropped(decided, order[..j])) > budget
    decreases |order| - k
  {
    hide Total, Dropped;
    if Total(Dropped(decided, order[..k])) <= budget {
      n := k;
    } else if k < |order| {
      n := ShortestDrop(decided, order, budget, k + 1);
    } else {
      assert order[..k] == order;
      NothingIncluded(Dropped(decided, order));
      assert false;
    }
  }
}
