/** Reading a file front to back with `ReadFile`, however much each call delivers. */
module FileReads {
  import opened GoStrings
  import opened Octets

  type Positive = x: int | x > 0 witness 1

  /** What one call does: it fails, or it delivers some number of octets up to what was asked and is left. */
  datatype Outcome = Fails | Delivers(atMost: Positive)

  /** The call's data; none of it at the end of the file only. */
  function ReadFile(file: Bytes, at: nat, size: Positive, outcome: Outcome): (r: Option<Bytes>)
    requires at <= |file|
    ensures r.None? <==> outcome.Fails?
    ensures r.Some? ==> |r.value| <= size && at + |r.value| <= |file| && r.value == file[at..at + |r.value|]
    ensures r.Some? ==> (r.value == [] <==> at == |file|)
  {
    match outcome
    case Fails => None
    case Delivers(atMost) =>
      var n := if atMost < size then atMost else size;
      Some(if at + n <= |file| then file[at..at + n] else file[at..])
  }
}
