/**
 * The values behind the conversion history: the entry recorded when a result
 * is copied, the two direction labels, the newest-first list capped at ten
 * entries, and the recovery of an entry's
 * inputs and direction when it is loaded back.
 */
module History {
  import opened Wrappers
  import opened Converter

  /** At most this many entries are kept; the oldest ones are dropped. */
  const Capacity: nat := 10

  /** The label recorded for a Nether to Overworld conversion. */
  const NetherLabel: string := "Nether → Overworld"

  /** The label recorded for an Overworld to Nether conversion. */
  const OverworldLabel: string := "Overworld → Nether"

  /** The text whose presence in a label marks a Nether to Overworld entry. */
  const NetherMarker: string := "Nether →"

  /**
   * One copied conversion: its identifier (the clock in milliseconds), the
   * typed input, the displayed result, the direction label and the time of
   * day as text.
   */
  datatype Entry = Entry(id: int, from: Input, to: Point, dimension: string, timestamp: string)

  /** The label recorded for a direction. */
  function Label(d: Direction): (s: string)
    ensures s == NetherLabel <==> d.NetherToOverworld?
    ensures s == OverworldLabel <==> d.OverworldToNether?
  {
    if d.NetherToOverworld? then NetherLabel else OverworldLabel
  }

  /** The entry recorded on a copy; the clock reading and the time text are supplied by the caller. */
  function NewEntry(id: int, from: Input, d: Direction, timestamp: string): (e: Entry)
    ensures e.id == id && e.from == from && e.timestamp == timestamp
    ensures e.to == Display(from, d)
    ensures e.dimension == Label(d) && DirectionOf(e.dimension) == d
  {
    DirectionOfLabel(d);
    Entry(id, from, Display(from, d), Label(d), timestamp)
  }

  /** The first `n` elements of `s`, or all of `s` when it is shorter. */
  function Take(s: seq<Entry>, n: nat): (r: seq<Entry>)
    ensures |r| == if |s| < n then |s| else n
    ensures r == s[..|r|]
  {
    if |s| <= n then s else s[..n]
  }

  /**
   * The history after a copy: the new entry in front of the old history,
   * cut to the ten newest.
   */
  function Push(e: Entry, h: seq<Entry>): (r: seq<Entry>)
    ensures |r| == if |h| < Capacity then |h| + 1 else Capacity
    ensures r[0] == e
    ensures r[1..] == h[..|r| - 1]
  {
    Take([e] + h, Capacity)
  }

  /** Whether `p` occurs in `s` starting at index `i`. */
  predicate OccursAt(s: string, p: string, i: int) {
    0 <= i <= |s| - |p| && s[i..i + |p|] == p
  }

  /** Whether `p` occurs in `s` as a contiguous piece (the string `includes` test). */
  function Includes(s: string, p: string): (b: bool)
    ensures b <==> exists i :: OccursAt(s, p, i)
    decreases |s|
  {
    if |s| < |p| then false
    else if s[..|p|] == p then assert OccursAt(s, p, 0); true
    else
      ShiftOccurs(s, p);
      Includes(s[1..], p)
  }

  /** Past a non-matching first position, `p` occurs in `s` exactly when it occurs in `s` without its first character. */
  lemma ShiftOccurs(s: string, p: string)
    requires |p| <= |s| && s[..|p|] != p
    ensures (exists i :: OccursAt(s, p, i)) <==> (exists i :: OccursAt(s[1..], p, i))
  {
    if i :| OccursAt(s, p, i) {
      assert i > 0;
      assert s[1..][i - 1..i - 1 + |p|] == s[i..i + |p|];
      assert OccursAt(s[1..], p, i - 1);
    }
    if i :| OccursAt(s[1..], p, i) {
      assert s[i + 1..i + 1 + |p|] == s[1..][i..i + |p|];
      assert OccursAt(s, p, i + 1);
    }
  }

  /** The direction recovered from a label: Nether to Overworld when the label mentions the Nether marker. */
  function DirectionOf(dimension: string): (d: Direction)
    ensures d == NetherToOverworld <==> exists i :: OccursAt(dimension, NetherMarker, i)
  {
    if Includes(dimension, NetherMarker) then NetherToOverworld else OverworldToNether
  }

  /** Loading an entry back: its typed input and the direction read off its label. */
  function Restore(e: Entry): (r: (Input, Direction))
    ensures r.0 == e.from
    ensures r.1 == NetherToOverworld <==> exists i :: OccursAt(e.dimension, NetherMarker, i)
  {
    (e.from, DirectionOf(e.dimension))
  }

  /** The label of a direction always reads back as that direction. */
  lemma DirectionOfLabel(d: Direction)
    ensures DirectionOf(Label(d)) == d
  {
    if d == NetherToOverworld {
      assert NetherLabel[..|NetherMarker|] == NetherMarker;
    } else {
      var s, p := OverworldLabel, NetherMarker;
      forall i ensures !OccursAt(s, p, i) {
        // The arrow is the marker's eighth character and sits only at index 10 of the label.
        if 0 <= i <= |s| - |p| {
          if i == 3 {
            assert s[i..i + |p|][0] != p[0];
          } else {
            assert s[i..i + |p|][7] != p[7];
          }
        }
      }
    }
  }

  /**
   * Loading back a recorded entry restores exactly the input and direction it
   * was recorded with, and recomputing the display from them gives back the
   * recorded result.
   */
  lemma RestoreNewEntry(id: int, from: Input, d: Direction, timestamp: string)
    ensures Restore(NewEntry(id, from, d, timestamp)) == (from, d)
    ensures Display(from, d) == NewEntry(id, from, d, timestamp).to
  {
  }

  /**
   * The worked example: copying (100, 64, 100) going to the Nether puts an
   * entry with result (12, 64, 12) and the Overworld to Nether label in front.
   */
  lemma CopyExample(h: seq<Entry>, id: int, timestamp: string)
    ensures var r := Push(NewEntry(id, Input(Some(100), Some(64), Some(100)), OverworldToNether, timestamp), h);
      r[0].from == Input(Some(100), Some(64), Some(100)) &&
      r[0].to == Point(12, 64, 12) &&
      r[0].dimension == "Overworld → Nether"
  {
  }

  /** The history after copying each of `es` in turn, oldest first, starting from `h`. */
  function Commits(h: seq<Entry>, es: seq<Entry>): (r: seq<Entry>)
    ensures es != [] ==> 0 < |r| <= Capacity && r[0] == es[|es| - 1]
    ensures es == [] ==> r == h
    decreases |es|
  {
    if es == [] then h else Push(es[|es| - 1], Commits(h, es[..|es| - 1]))
  }

  /** `s` in the opposite order. */
  function Reversed(s: seq<Entry>): (r: seq<Entry>)
    ensures |r| == |s|
    decreases |s|
  {
    if s == [] then [] else [s[|s| - 1]] + Reversed(s[..|s| - 1])
  }

  lemma {:induction false} ReversedAt(s: seq<Entry>, k: nat)
    requires k < |s|
    ensures Reversed(s)[k] == s[|s| - 1 - k]
    decreases |s|
  {
    if k > 0 {
      ReversedAt(s[..|s| - 1], k - 1);
    }
  }

  /** Putting an entry in front and cutting to the capacity does not depend on an earlier cut. */
  lemma PushTake(e: Entry, s: seq<Entry>)
    ensures Push(e, Take(s, Capacity)) == Take([e] + s, Capacity)
  {
  }

  /**
   * Copying several entries in turn leaves the ten newest of them, newest
   * first, followed by as much of the earlier history as still fits.
   */
  lemma {:induction false} CommitsNewestFirst(h: seq<Entry>, es: seq<Entry>)
    requires es != []
    ensures Commits(h, es) == Take(Reversed(es) + h, Capacity)
    decreases |es|
  {
    var init, last := es[..|es| - 1], es[|es| - 1];
    assert Reversed(es) + h == [last] + (Reversed(init) + h);
    if init == [] {
      assert Reversed(init) + h == h;
    } else {
      CommitsNewestFirst(h, init);
      PushTake(last, Reversed(init) + h);
    }
  }

  /**
   * Eleven or more copies of distinct entries leave exactly ten entries, and
   * the oldest copied entry is no longer among them.
   */
  lemma ElevenCommits(h: seq<Entry>, es: seq<Entry>)
    requires |es| >= Capacity + 1
    requires forall k :: 0 < k < |es| ==> es[k] != es[0]
    ensures |Commits(h, es)| == Capacity
    ensures es[0] !in Commits(h, es)
  {
    CommitsNewestFirst(h, es);
    var r := Commits(h, es);
    forall k | 0 <= k < |r| ensures r[k] != es[0] {
      ReversedAt(es, k);
      assert r[k] == (Reversed(es) + h)[k] == es[|es| - 1 - k];
    }
  }
}
