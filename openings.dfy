/**
 * The opening records the back end passes between its stages. They are
 * mutable dictionaries shared by reference: the opening detector fills in
 * their IDs, endpoints and types in place, and the topology builder appends
 * the exterior to a one-sided opening's `connects` list where its caller sees
 * it. An `Opening` object stands for one such dictionary.
 */
module Openings {
  import opened Wrappers
  import opened Grid

  class Opening {
    var id: string
    /** The `type` entry. */
    var kind: string
    var connects: seq<string>
    var voxelIndices: seq<Cell>
    /** The `area` entry, absent from openings that were not measured. */
    var area: Option<real>
    var width: real
    var height: real
    var aspectRatio: real
    var state: string

    /** The record `_detect_openings_between_spaces` creates for one cluster, before IDs and types. */
    constructor (voxels: seq<Cell>, area: real, width: real, height: real, aspectRatio: real)
      ensures id == "" && kind == "unknown" && connects == [] && voxelIndices == voxels
      ensures this.area == Some(area) && this.width == width && this.height == height
      ensures this.aspectRatio == aspectRatio && state == "open"
    {
      id := "";
      kind := "unknown";
      connects := [];
      voxelIndices := voxels;
      this.area := Some(area);
      this.width := width;
      this.height := height;
      this.aspectRatio := aspectRatio;
      state := "open";
    }
  }

  /** The entries of an opening that the topology builder reads. */
  datatype OpeningView = OpeningView(id: string, kind: string, connects: seq<string>, area: Option<real>)

  function View(o: Opening): (v: OpeningView)
    reads o
    ensures v.id == o.id && v.kind == o.kind && v.connects == o.connects && v.area == o.area
  {
    OpeningView(o.id, o.kind, o.connects, o.area)
  }

  function Views(ops: seq<Opening>): (r: seq<OpeningView>)
    reads set o | o in ops
    ensures |r| == |ops| && forall k :: 0 <= k < |ops| ==> r[k] == View(ops[k])
  {
    if ops == [] then [] else Views(ops[..|ops| - 1]) + [View(ops[|ops| - 1])]
  }

  /** Every entry of `o` other than `connects` is as it was. */
  twostate predicate OnlyConnectsChanged(o: Opening)
    reads o
  {
    o.id == old(o.id) && o.kind == old(o.kind) && o.area == old(o.area) &&
    o.voxelIndices == old(o.voxelIndices) && o.width == old(o.width) && o.height == old(o.height) &&
    o.aspectRatio == old(o.aspectRatio) && o.state == old(o.state)
  }

  /** Every entry of an opening, as a value. */
  datatype OpeningRecord = OpeningRecord(
    id: string, kind: string, connects: seq<string>, voxelIndices: seq<Cell>,
    area: Option<real>, width: real, height: real, aspectRatio: real, state: string)

  function Record(o: Opening): OpeningRecord
    reads o
  {
    OpeningRecord(o.id, o.kind, o.connects, o.voxelIndices, o.area, o.width, o.height, o.aspectRatio, o.state)
  }

  function Records(ops: seq<Opening>): (r: seq<OpeningRecord>)
    reads set o | o in ops
    ensures |r| == |ops| && forall k :: 0 <= k < |ops| ==> r[k] == Record(ops[k])
  {
    if ops == [] then [] else Records(ops[..|ops| - 1]) + [Record(ops[|ops| - 1])]
  }

  /** No opening object is listed twice. */
  predicate Distinct(ops: seq<Opening>)
  {
    forall i, j :: 0 <= i < j < |ops| ==> ops[i] != ops[j]
  }
}
