/** The two-slot marker rule shared by the paint tool (CalendarTab.tsx) and
    the duty stamp (App.tsx): a marker joins a day's list while it holds
    fewer than two, and otherwise takes the second slot. */
module Markers {

  /** Places `x` in `ids`: appended below two entries, written over index 1
      from two on. */
  function PlaceCapped(ids: seq<string>, x: string): (r: seq<string>)
    ensures x in r
    ensures |r| == if |ids| < 2 then |ids| + 1 else |ids|
    ensures |ids| >= 1 ==> r[0] == ids[0]
    ensures forall i :: 0 <= i < |ids| && i != 1 ==> r[i] == ids[i]
  {
    if |ids| >= 2 then assert ids[1 := x][1] == x; ids[1 := x]
    else assert (ids + [x])[|ids|] == x; ids + [x]
  }

  /** Below two markers nothing is lost; from two on only the second goes. */
  lemma PlaceCappedKeeps(ids: seq<string>, x: string)
    ensures |ids| < 2 ==> PlaceCapped(ids, x) == ids + [x]
    ensures |ids| >= 2 ==> PlaceCapped(ids, x)[1] == x && |PlaceCapped(ids, x)| == |ids|
    ensures |ids| <= 2 ==> |PlaceCapped(ids, x)| <= 2
  {
  }
}
