/** The track store the estimator consumes and annotates: for each object class
    ("players", "referees", "ball", and any other class the tracker emits) one
    map per video frame from track id to that track's record in the frame. */
module Tracks {

  datatype Option<+T> = None | Some(value: T)

  /** A position on the ground plane, in metres (a record's `position_transformed`). */
  type Position = (real, real)

  /** One track's record in one frame. Only the fields the estimator reads or
      writes are modelled beside the bounding box. */
  datatype Record = Record(
    bbox: seq<real>,
    position: Option<Position>,
    speed: Option<real>,
    distance: Option<real>)

  /** Track id -> record, for one frame of one object class. */
  type Frame = map<int, Record>

  /** The record with its `speed` and `distance` entries set. */
  function Annotated(r: Record, speed: real, distance: real): Record
  {
    r.(speed := Some(speed), distance := Some(distance))
  }

  /** No element is listed twice (object classes in the track store, entries in
      the export). */
  ghost predicate Distinct<T>(s: seq<T>)
  {
    forall i, j :: 0 <= i < j < |s| ==> s[i] != s[j]
  }

  /** The position of the first occurrence of `e` in `s`, or `|s|` when absent. */
  function IndexOf<T(==)>(s: seq<T>, e: T): (i: nat)
    ensures i <= |s| && (i < |s| <==> e in s)
    ensures i < |s| ==> s[i] == e && e !in s[..i]
  {
    if s == [] then 0
    else if s[0] == e then 0
    else
      assert forall j :: 0 <= j < |s| - 1 ==> s[1..][j] == s[j + 1];
      assert s[..IndexOf(s[1..], e) + 1] == [s[0]] + s[1..][..IndexOf(s[1..], e)];
      1 + IndexOf(s[1..], e)
  }

  /** In a list without repetitions the element at position `i` is first found at `i`. */
  lemma IndexOfDistinct<T>(s: seq<T>, i: nat)
    requires Distinct(s) && i < |s|
    ensures IndexOf(s, s[i]) == i
  {
  }

  /** The caller's `tracks` dictionary, updated in place by the estimator.
      `objects` is its key order (Python dictionaries keep insertion order). */
  class TrackStore {
    var objects: seq<string>
    var frames: map<string, seq<Frame>>

    ghost predicate Valid()
      reads this
    {
      Distinct(objects) && forall c :: c in frames <==> c in objects
    }

    constructor (objects: seq<string>, frames: map<string, seq<Frame>>)
      requires Distinct(objects)
      requires forall c :: c in frames <==> c in objects
      ensures Valid()
      ensures this.objects == objects && this.frames == frames
    {
      this.objects := objects;
      this.frames := frames;
    }

    /** `tracks[c][g][x]['speed'] = speed; tracks[c][g][x]['distance'] = distance` */
    method Annotate(c: string, g: nat, x: int, speed: real, distance: real)
      requires Valid() && c in frames && g < |frames[c]| && x in frames[c][g]
      modifies this
      ensures Valid() && objects == old(objects)
      ensures frames == old(frames)[c := old(frames)[c][g := old(frames)[c][g][x := Annotated(old(frames)[c][g][x], speed, distance)]]]
    {
      var f := frames[c];
      f := f[g := f[g][x := Annotated(f[g][x], speed, distance)]];
      frames := frames[c := f];
    }
  }
}
