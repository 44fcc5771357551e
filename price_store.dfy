/**
 * `saveToDB`: the bulk write built from a batch of observations. Each
 * observation becomes one `updateOne` that targets the price record with the
 * observation's id (as text) holding an entry of the observation's grade,
 * sets that entry's price, and upserts. How the database applies the
 * operations is not part of this model; only the list of operations is.
 */
module PriceStore {
  import opened Records
  import opened Decimal

  /**
   * One `updateOne` operation: the filter `{ id, "prices.grade" }`, the price
   * it sets on the array element selected by the array filter
   * `{ "elem.grade" }`, and the upsert flag.
   */
  datatype UpdateOne = UpdateOne(
    filterId: string,
    filterGrade: int,
    setPrice: string,
    arrayFilterGrade: int,
    upsert: bool)

  /** What `saveToDB` hands to the database: nothing, or one bulk write. */
  datatype BulkWrite = NoWrite | Write(ops: seq<UpdateOne>)

  /** The operation for one observation: an upsert keyed by the id's text and the grade. */
  function ToUpdate(o: Observation): (u: UpdateOne)
    ensures u.filterId == IntToString(o.id) && NumberOf(u.filterId) == Some(o.id)
    ensures u.filterGrade == o.prices.grade && u.arrayFilterGrade == o.prices.grade
    ensures u.setPrice == o.prices.price && u.upsert
  {
    IntRoundTrip(o.id);
    UpdateOne(IntToString(o.id), o.prices.grade, o.prices.price, o.prices.grade, true)
  }

  /** `results.map(...)`: one operation per observation, in order. */
  function BulkOps(results: seq<Observation>): (ops: seq<UpdateOne>)
    ensures |ops| == |results|
    ensures forall i :: 0 <= i < |ops| ==> ops[i].upsert && ops[i].arrayFilterGrade == ops[i].filterGrade
    ensures forall i :: 0 <= i < |ops| ==> ops[i].filterId == IntToString(results[i].id)
  {
    MapSeq(ToUpdate, results)
  }

  /** `Array.prototype.map` with a total function. */
  function MapSeq<A, B>(f: A -> B, s: seq<A>): (r: seq<B>)
    ensures |r| == |s| && forall i :: 0 <= i < |s| ==> r[i] == f(s[i])
  {
    seq(|s|, i requires 0 <= i < |s| => f(s[i]))
  }

  /** Mapping a non-empty list maps its head, then its tail. */
  lemma MapSeqCons<A, B>(f: A -> B, s: seq<A>)
    requires s != []
    ensures MapSeq(f, s) == [f(s[0])] + MapSeq(f, s[1..])
  {
    assert MapSeq(f, s)[1..] == MapSeq(f, s[1..]);
  }

  /** The observation an operation writes, read back from its filter and update. */
  function FromUpdate(op: UpdateOne): Option<Observation> {
    match NumberOf(op.filterId)
    case Some(id) => Some(Observation(id, PriceEntry(op.filterGrade, op.setPrice)))
    case None => None
  }

  /** Reads back a whole bulk write, failing if any filter id is not an integer's text. */
  function Decode(ops: seq<UpdateOne>): Option<seq<Observation>>
    decreases |ops|
  {
    if ops == [] then Some([])
    else
      match (FromUpdate(ops[0]), Decode(ops[1..]))
      case (Some(o), Some(rest)) => Some([o] + rest)
      case _ => None
  }

  /** `saveToDB(results)`: no write for an empty batch, one bulk write otherwise. */
  function SaveToDB(results: seq<Observation>): (w: BulkWrite)
    ensures w.NoWrite? <==> results == []
  {
    var ops := BulkOps(results);
    if |ops| > 0 then Write(ops) else NoWrite
  }

  /** Each operation carries exactly its observation: the id, grade and price come back unchanged. */
  lemma {:induction false} BulkOpsRoundTrip(results: seq<Observation>)
    ensures Decode(BulkOps(results)) == Some(results)
    decreases |results|
  {
    if results != [] {
      BulkOpsCons(results);
      BulkOpsRoundTrip(results[1..]);
      DecodeCons(ToUpdate(results[0]), BulkOps(results[1..]));
      assert [results[0]] + results[1..] == results;
    }
  }

  /** The first operation of a non-empty batch is the first observation's. */
  lemma BulkOpsCons(results: seq<Observation>)
    requires results != []
    ensures BulkOps(results) == [ToUpdate(results[0])] + BulkOps(results[1..])
  {
    MapSeqCons(ToUpdate, results);
  }

  /** Reading back an operation in front of a readable list. */
  lemma DecodeCons(op: UpdateOne, rest: seq<UpdateOne>)
    requires FromUpdate(op).Some? && Decode(rest).Some?
    ensures Decode([op] + rest) == Some([FromUpdate(op).value] + Decode(rest).value)
  {
    assert ([op] + rest)[1..] == rest;
  }

  /** The write for a non-empty batch is the bulk operation list, one per observation, each read back as that observation. */
  lemma SaveToDBWritesEveryObservation(results: seq<Observation>)
    requires results != []
    ensures SaveToDB(results).Write?
    ensures SaveToDB(results).ops == BulkOps(results)
    ensures Decode(SaveToDB(results).ops) == Some(results)
  {
    BulkOpsRoundTrip(results);
  }

  /** Observations of different players never share a filter id. */
  lemma DistinctPlayersDistinctFilters(a: Observation, b: Observation)
    requires a.id != b.id
    ensures ToUpdate(a).filterId != ToUpdate(b).filterId
  {
    if IntToString(a.id) == IntToString(b.id) {
      IntToStringInjective(a.id, b.id);
    }
  }
}
