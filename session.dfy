/**
 * The route history kept in the page's session state (app.py:20-21, 125,
 * 137-143, 151, 158): a list that grows by one entry per route found, is shown
 * five newest first, and can be cleared.
 */
module Session {
  import Directions

  /** One saved route, the dictionary of app.py:137-143. */
  datatype Entry = Entry(origin: string, destination: string, mode: string, distanceKm: real, durationMin: int)

  /** How many entries the history tab shows. */
  const Shown := 5

  /** `h[-5:]`: the last five entries, or all of them when there are fewer. */
  function Newest<T>(h: seq<T>): (r: seq<T>)
    ensures |r| == if |h| < Shown then |h| else Shown
    ensures r == h[|h| - |r|..]
  {
    if |h| < Shown then h else h[|h| - Shown..]
  }

  function Reverse<T>(s: seq<T>): (r: seq<T>)
    ensures |r| == |s|
    ensures forall i :: 0 <= i < |s| ==> r[i] == s[|s| - 1 - i]
  {
    if s == [] then [] else Reverse(s[1..]) + [s[0]]
  }

  /** `enumerate(s, start)`: each element paired with its number. */
  function Enumerate<T>(s: seq<T>, start: int): (r: seq<(int, T)>)
    ensures |r| == |s|
    ensures forall i :: 0 <= i < |s| ==> r[i] == (start + i, s[i])
  {
    if s == [] then [] else [(start, s[0])] + Enumerate(s[1..], start + 1)
  }

  /**
   * What the history tab lists (app.py:151): `enumerate(reversed(h[-5:]), 1)`,
   * that is the min(5, |h|) latest entries, newest first, numbered from 1.
   */
  function Recent(h: seq<Entry>): (r: seq<(int, Entry)>)
    ensures |r| == if |h| < Shown then |h| else Shown
    ensures forall i :: 0 <= i < |r| ==> r[i] == (i + 1, h[|h| - 1 - i])
  {
    Enumerate(Reverse(Newest(h)), 1)
  }

  /** A route just added is listed first. */
  lemma NewestListedFirst(h: seq<Entry>, e: Entry)
    ensures Recent(h + [e])[0] == (1, e)
  {
  }

  /** Adding a route moves every listed route one place down; the fifth drops off. */
  lemma AddingShiftsList(h: seq<Entry>, e: Entry)
    ensures |Recent(h + [e])| == if |h| < Shown then |h| + 1 else Shown
    ensures forall i :: 1 <= i < |Recent(h + [e])| ==> Recent(h + [e])[i] == (i + 1, Recent(h)[i - 1].1)
  {
    var r, r0 := Recent(h + [e]), Recent(h);
    forall i | 1 <= i < |r| ensures r[i] == (i + 1, r0[i - 1].1) {
      assert (h + [e])[|h| - i] == h[|h| - 1 - (i - 1)];
    }
  }

  /** `st.session_state.history`. */
  class History {
    var entries: seq<Entry>

    /** app.py:20-21: a fresh session starts with no routes. */
    constructor ()
      ensures entries == []
    {
      entries := [];
    }

    /** app.py:137-143. */
    method Append(e: Entry)
      modifies this
      ensures entries == old(entries) + [e]
    {
      entries := entries + [e];
    }

    /**
     * app.py:125 and 137-143: a lookup is saved only when it produced a route;
     * a failed lookup (an empty route) leaves the history as it was.
     */
    method Record(origin: string, destination: string, mode: string, d: Directions.RouteResult)
      modifies this
      ensures d.route != [] ==> entries == old(entries) + [Entry(origin, destination, mode, d.distanceKm, d.durationMin)]
      ensures d.route == [] ==> entries == old(entries)
    {
      if d.route != [] {
        Append(Entry(origin, destination, mode, d.distanceKm, d.durationMin));
      }
    }

    /** app.py:158. */
    method Clear()
      modifies this
      ensures entries == []
    {
      entries := [];
    }

    /** The loop of app.py:151: the listed routes, newest first, numbered from 1. */
    method LastFive() returns (listed: seq<(int, Entry)>)
      ensures listed == Recent(entries)
    {
      var n := |entries|;
      var count := if n < Shown then n else Shown;
      listed := [];
      var i := 0;
      while i < count
        invariant 0 <= i <= count
        invariant |listed| == i
        invariant forall j :: 0 <= j < i ==> listed[j] == (j + 1, entries[n - 1 - j])
      {
        listed := listed + [(i + 1, entries[n - 1 - i])];
        i := i + 1;
      }
    }
  }
}
