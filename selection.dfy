/** The checkbox selection the dashboard pages keep: a list of ids in the
    order they were ticked, toggled one at a time or all at once. */
module Selection {

  import opened Common

  /** The list without any occurrence of `id`. */
  function Without(s: seq<int>, id: int): (r: seq<int>)
    ensures id !in r
    ensures forall x :: x != id ==> (x in r <==> x in s)
  {
    Filter(s, x => x != id)
  }

  /** Ticking or unticking one id: a ticked id is removed, any other is
      appended at the end. */
  function Toggle(selected: seq<int>, id: int): (r: seq<int>)
    ensures id in r <==> id !in selected
    ensures forall x :: x != id ==> (x in r <==> x in selected)
    ensures id !in selected ==> r == selected + [id]
    ensures id in selected ==> |r| < |selected|
  {
    if id in selected then
      var r := Without(selected, id);
      FilterShorter(selected, x => x != id);
      r
    else selected + [id]
  }

  /** Filtering keeps a list free of repeats. */
  lemma {:induction false} FilterNoDuplicates(s: seq<int>, p: int -> bool)
    requires NoDuplicates(s)
    ensures NoDuplicates(Filter(s, p))
  {
    if s != [] {
      FilterNoDuplicates(s[1..], p);
      var rest := Filter(s[1..], p);
      assert s[0] !in s[1..] by {
        forall j | 0 <= j < |s[1..]| ensures s[1..][j] != s[0] {
          assert s[1..][j] == s[j + 1];
        }
      }
      assert s[0] !in rest;
    }
  }

  /** Ticking an unticked id and then unticking it restores the selection;
      the other order restores it as a set, the id moving to the end. */
  lemma ToggleTwice(selected: seq<int>, id: int)
    ensures id !in selected ==> Toggle(Toggle(selected, id), id) == selected
    ensures forall x :: x in Toggle(Toggle(selected, id), id) <==> x in selected
  {
    if id !in selected {
      FilterAppend(selected, [id], x => x != id);
      FilterAll(selected, x => x != id);
    }
  }

  /** Toggling never introduces a repeated id. */
  lemma ToggleNoDuplicates(selected: seq<int>, id: int)
    requires NoDuplicates(selected)
    ensures NoDuplicates(Toggle(selected, id))
  {
    if id in selected {
      FilterNoDuplicates(selected, x => x != id);
    }
  }

  /** The select-all button: when as many ids are ticked as are listed it
      clears the selection, otherwise it ticks every listed id in list order. */
  function SelectAllOrNone(selected: seq<int>, listed: seq<int>): (r: seq<int>)
    ensures |selected| == |listed| ==> r == []
    ensures |selected| != |listed| ==> r == listed
  {
    if |selected| == |listed| then [] else listed
  }

  /** From any selection whose size differs from the list, pressing
      select-all twice ticks every listed id and then clears them all. */
  lemma SelectAllTwice(selected: seq<int>, listed: seq<int>)
    requires |selected| != |listed|
    ensures SelectAllOrNone(selected, listed) == listed
    ensures SelectAllOrNone(SelectAllOrNone(selected, listed), listed) == []
  {
  }

  /** The ids of a list, as a set. */
  function IdSet(s: seq<int>): set<int> {
    set x | x in s
  }

  /** A list without repeats has as many distinct ids as entries. */
  lemma {:induction false} DistinctCount(s: seq<int>)
    requires NoDuplicates(s)
    ensures |IdSet(s)| == |s|
  {
    if s != [] {
      assert NoDuplicates(s[1..]) by {
        forall i, j | 0 <= i < j < |s[1..]| ensures s[1..][i] != s[1..][j] {
          assert s[1..][i] == s[i + 1] && s[1..][j] == s[j + 1];
        }
      }
      DistinctCount(s[1..]);
      assert s[0] !in s[1..] by {
        forall j | 0 <= j < |s[1..]| ensures s[1..][j] != s[0] {
          assert s[1..][j] == s[j + 1];
        }
      }
      assert IdSet(s) == {s[0]} + IdSet(s[1..]) by {
        assert s == [s[0]] + s[1..];
      }
    }
  }

  /** A subset is no larger, and one of the same size is the whole set. */
  lemma SubsetCount(a: set<int>, b: set<int>)
    requires a <= b
    ensures |a| <= |b|
    ensures |a| == |b| ==> a == b
  {
    assert b == a + (b - a);
    assert a * (b - a) == {};
    if |a| == |b| {
      assert |b - a| == 0;
    }
  }

  /** With a repeat-free selection drawn from the listed ids, select-all
      clears the selection exactly when every listed id is ticked, and
      otherwise ticks them all. */
  lemma SelectAllClearsWhenAllTicked(selected: seq<int>, listed: seq<int>)
    requires NoDuplicates(selected) && NoDuplicates(listed)
    requires forall x :: x in selected ==> x in listed
    ensures SelectAllOrNone(selected, listed) == [] <==> forall x :: x in listed ==> x in selected
    ensures SelectAllOrNone(selected, listed) != [] ==> SelectAllOrNone(selected, listed) == listed
  {
    DistinctCount(selected);
    DistinctCount(listed);
    SubsetCount(IdSet(selected), IdSet(listed));
    if forall x :: x in listed ==> x in selected {
      assert IdSet(selected) == IdSet(listed);
    } else {
      var x :| x in listed && x !in selected;
      assert x in IdSet(listed) && x !in IdSet(selected);
    }
  }

  /** The selection survives a change of filter, so it can hold ids that
      are no longer listed: then a selection as long as the list makes
      select-all clear everything although some listed id is unticked. */
  lemma StaleSelectionClears(selected: seq<int>, listed: seq<int>, stale: int)
    requires NoDuplicates(selected) && NoDuplicates(listed)
    requires stale in selected && stale !in listed
    requires |selected| == |listed|
    ensures SelectAllOrNone(selected, listed) == []
    ensures exists y :: y in listed && y !in selected
  {
    DistinctCount(selected);
    DistinctCount(listed);
    assert stale in IdSet(selected) && stale !in IdSet(listed);
    if IdSet(listed) <= IdSet(selected) {
      SubsetCount(IdSet(listed), IdSet(selected));
      assert false;
    }
  }
}
