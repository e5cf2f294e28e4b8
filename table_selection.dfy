/**
 * The selection lists of the admin tables: arrays of ids kept in the order
 * they were selected. Clicking a row removes its id when present and
 * appends it otherwise.
 */
module TableSelection {

  ghost predicate Distinct(s: seq<string>) {
    forall i, j :: 0 <= i < j < |s| ==> s[i] != s[j]
  }

  /** `s.filter(value => value !== x)`. */
  function Without(s: seq<string>, x: string): (r: seq<string>)
    ensures |r| <= |s|
    ensures forall y :: y in r <==> y in s && y != x
    decreases |s|
  {
    if |s| == 0 then []
    else (if s[0] == x then [] else [s[0]]) + Without(s[1..], x)
  }

  /** `s.includes(id) ? s.filter(v => v !== id) : [...s, id]`. */
  function ToggleRow(selected: seq<string>, id: string): seq<string> {
    if id in selected then Without(selected, id) else selected + [id]
  }

  /** Filtering out a value that is absent changes nothing. */
  lemma {:induction false} WithoutAbsent(s: seq<string>, x: string)
    requires x !in s
    ensures Without(s, x) == s
    decreases |s|
  {
    if |s| > 0 {
      WithoutAbsent(s[1..], x);
      assert s == [s[0]] + s[1..];
    }
  }

  /** Filtering keeps the remaining values in order, so it keeps them distinct. */
  lemma {:induction false} WithoutDistinct(s: seq<string>, x: string)
    requires Distinct(s)
    ensures Distinct(Without(s, x))
    decreases |s|
  {
    if |s| > 0 {
      WithoutDistinct(s[1..], x);
      assert forall k :: 0 <= k < |s[1..]| ==> s[1..][k] != s[0];
      assert s[0] !in Without(s[1..], x);
    }
  }

  /** A click flips the clicked id's membership and leaves every other id as it was. */
  lemma ToggleRowMembership(selected: seq<string>, id: string)
    ensures id in ToggleRow(selected, id) <==> id !in selected
    ensures forall y :: y != id ==> (y in ToggleRow(selected, id) <==> y in selected)
  {
  }

  /** A click keeps a list of distinct ids distinct. */
  lemma ToggleRowDistinct(selected: seq<string>, id: string)
    requires Distinct(selected)
    ensures Distinct(ToggleRow(selected, id))
  {
    if id in selected {
      WithoutDistinct(selected, id);
    }
  }

  /**
   * Clicking an unselected row twice gives back the same list; clicking a
   * selected row twice keeps the same ids but moves that row's id last.
   */
  lemma ToggleRowTwice(selected: seq<string>, id: string)
    requires Distinct(selected)
    ensures id !in selected ==> ToggleRow(ToggleRow(selected, id), id) == selected
    ensures id in selected ==> ToggleRow(ToggleRow(selected, id), id) == Without(selected, id) + [id]
  {
    if id !in selected {
      WithoutAppended(selected, id);
    }
  }

  lemma {:induction false} WithoutAppended(s: seq<string>, x: string)
    requires x !in s
    ensures Without(s + [x], x) == s
    decreases |s|
  {
    if |s| == 0 {
      assert s + [x] == [x];
    } else {
      WithoutAppended(s[1..], x);
      assert (s + [x])[1..] == s[1..] + [x];
      assert s == [s[0]] + s[1..];
    }
  }
}
