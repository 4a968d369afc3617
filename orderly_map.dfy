/**
 * The ordered callback map of pkg/gzutil/orderly_map.go: callbacks are
 * registered under a name and run in the order their names were first
 * appended; appending a name again replaces its callback in place.
 *
 * Callbacks are opaque values of type `F`; running them is modelled by
 * returning the sequence of callbacks invoked.
 */
module OrderlyMaps {

  /** The names of `h` in order of first appearance. */
  function FirstOrder<F>(h: seq<(string, F)>): (names: seq<string>)
  {
    if h == [] then []
    else
      var names := FirstOrder(h[..|h| - 1]);
      if h[|h| - 1].0 in names then names else names + [h[|h| - 1].0]
  }

  /** For every name of `h`, the callback appended last under it. */
  function LastValues<F>(h: seq<(string, F)>): map<string, F>
  {
    if h == [] then map[] else LastValues(h[..|h| - 1])[h[|h| - 1].0 := h[|h| - 1].1]
  }

  /** The names `h` appends, as a set. */
  ghost function Names<F>(h: seq<(string, F)>): set<string>
  {
    set i | 0 <= i < |h| :: h[i].0
  }

  /** The position in `h` where `name` is first appended. */
  function FirstAt<F>(h: seq<(string, F)>, name: string): (i: nat)
    requires name in FirstOrder(h)
    ensures i < |h| && h[i].0 == name
    ensures forall j | 0 <= j < i :: h[j].0 != name
  {
    var init := h[..|h| - 1];
    if name in FirstOrder(init) then
      var i := FirstAt(init, name);
      assert h[i] == init[i];
      i
    else
      FirstOrderNames(init);
      assert forall j | 0 <= j < |init| :: h[j].0 == init[j].0 && init[j].0 in Names(init);
      |h| - 1
  }

  ghost predicate Distinct(s: seq<string>)
  {
    forall i, j | 0 <= i < j < |s| :: s[i] != s[j]
  }

  /**
   * The first-appearance order lists every appended name exactly once, and
   * its names are exactly the keys of the last-value map.
   */
  lemma {:induction false} FirstOrderNames<F>(h: seq<(string, F)>)
    ensures Distinct(FirstOrder(h))
    ensures forall n :: n in FirstOrder(h) <==> n in Names(h)
    ensures forall n :: n in FirstOrder(h) <==> n in LastValues(h)
  {
    if h != [] {
      var init := h[..|h| - 1];
      FirstOrderNames(init);
      assert Names(h) == Names(init) + {h[|h| - 1].0} by {
        forall n | n in Names(h) ensures n in Names(init) + {h[|h| - 1].0} {
          var i :| 0 <= i < |h| && h[i].0 == n;
          if i < |h| - 1 {
            assert init[i] == h[i];
          }
        }
        forall n | n in Names(init) ensures n in Names(h) {
          var i :| 0 <= i < |init| && init[i].0 == n;
          assert h[i] == init[i];
        }
      }
    }
  }

  /**
   * First in, first out: of two names in the run order, the earlier one was
   * appended for the first time earlier.
   */
  lemma {:induction false} FirstOrderIsFifo<F>(h: seq<(string, F)>, i: nat, j: nat)
    requires i < j < |FirstOrder(h)|
    ensures FirstAt(h, FirstOrder(h)[i]) < FirstAt(h, FirstOrder(h)[j])
  {
    var init := h[..|h| - 1];
    var names := FirstOrder(init);
    var a, b := FirstOrder(h)[i], FirstOrder(h)[j];
    if j < |names| {
      FirstOrderIsFifo(init, i, j);
    } else {
      assert a == names[i] && b !in names;
    }
  }

  /** Same name, overwritten: the callback kept for a name is the one of its last append. */
  lemma {:induction false} LastValueIsLastAppend<F>(h: seq<(string, F)>, j: nat)
    requires j < |h| && forall k | j < k < |h| :: h[k].0 != h[j].0
    ensures h[j].0 in LastValues(h) && LastValues(h)[h[j].0] == h[j].1
  {
    if j < |h| - 1 {
      var init := h[..|h| - 1];
      assert init[j] == h[j];
      LastValueIsLastAppend(init, j);
    }
  }

  /** The map of `orderly_map.go`, with the appends it has seen as ghost history. */
  class OrderlyMap<F> {
    var funcMap: map<string, F>
    var nameList: seq<string>
    ghost var history: seq<(string, F)>

    /** The name list is the first-appearance order of the appends, the map their last values. */
    ghost predicate Valid()
      reads this
    {
      nameList == FirstOrder(history) && funcMap == LastValues(history)
    }

    /** `NewOrderlyMap` */
    constructor ()
      ensures Valid() && funcMap == map[] && nameList == [] && history == []
    {
      funcMap := map[];
      nameList := [];
      history := [];
    }

    /** `Append(funcName, value)`: a new name goes to the end of the list; the callback is stored either way. */
    method Append(funcName: string, value: F)
      requires Valid()
      modifies this
      ensures Valid() && history == old(history) + [(funcName, value)]
      ensures funcMap == old(funcMap)[funcName := value]
      ensures funcName in old(funcMap) ==> nameList == old(nameList)
      ensures funcName !in old(funcMap) ==> nameList == old(nameList) + [funcName]
    {
      FirstOrderNames(history);
      if funcName !in funcMap {
        nameList := nameList + [funcName];
      }
      funcMap := funcMap[funcName := value];
      history := history + [(funcName, value)];
      assert history[..|history| - 1] == old(history);
    }

    /** `Foreach`: the callbacks invoked, one per listed name, in list order. */
    method Foreach() returns (calls: seq<F>)
      requires Valid()
      ensures |calls| == |nameList|
      ensures forall i | 0 <= i < |nameList| :: nameList[i] in funcMap && calls[i] == funcMap[nameList[i]]
    {
      FirstOrderNames(history);
      calls := [];
      if |nameList| == 0 {
        return;
      }
      for i := 0 to |nameList|
        invariant |calls| == i
        invariant forall j | 0 <= j < i :: calls[j] == funcMap[nameList[j]]
      {
        calls := calls + [funcMap[nameList[i]]];
      }
    }

    /**
     * What `Foreach` runs, stated against the appends: every name appended
     * so far exactly once, in first-append order.
     */
    lemma RunOrder()
      requires Valid()
      ensures Distinct(nameList)
      ensures forall n :: n in nameList <==> n in Names(history)
      ensures forall i, j | 0 <= i < j < |nameList| :: FirstAt(history, nameList[i]) < FirstAt(history, nameList[j])
    {
      FirstOrderNames(history);
      forall i, j | 0 <= i < j < |nameList|
        ensures FirstAt(history, nameList[i]) < FirstAt(history, nameList[j])
      {
        FirstOrderIsFifo(history, i, j);
      }
    }
  }
}
