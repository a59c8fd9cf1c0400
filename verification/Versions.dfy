/** The level-M version tables, versions 1 to 10. */
module Versions {

  datatype VersionSpec = VersionSpec(
    version: nat, ecPerBlock: nat,
    group1Blocks: nat, group1Data: nat,
    group2Blocks: nat, group2Data: nat)

  datatype QrError = EmptyPayload | PayloadTooLong | InvalidMask

  datatype Result<+T> = Ok(value: T) | Err(error: QrError)

  const VERSIONS_M: seq<VersionSpec> := [
    VersionSpec(1, 10, 1, 16, 0, 0),
    VersionSpec(2, 16, 1, 28, 0, 0),
    VersionSpec(3, 26, 1, 44, 0, 0),
    VersionSpec(4, 18, 2, 32, 0, 0),
    VersionSpec(5, 24, 2, 43, 0, 0),
    VersionSpec(6, 16, 4, 27, 0, 0),
    VersionSpec(7, 18, 4, 31, 0, 0),
    VersionSpec(8, 22, 2, 38, 2, 39),
    VersionSpec(9, 22, 3, 36, 2, 37),
    VersionSpec(10, 26, 4, 43, 1, 44)]

  const TOTAL_CODEWORDS: seq<nat> := [26, 44, 70, 100, 134, 172, 196, 242, 292, 346]

  const REMAINDER_BITS: seq<nat> := [0, 7, 7, 7, 7, 7, 0, 0, 0, 0]

  predicate InTable(spec: VersionSpec) {
    1 <= spec.version <= 10 && spec == VERSIONS_M[spec.version - 1]
  }

  function DataCodewordCount(spec: VersionSpec): nat {
    spec.group1Blocks * spec.group1Data + spec.group2Blocks * spec.group2Data
  }

  function ModuleCount(version: nat): nat {
    version * 4 + 17
  }

  /** The width of the length field. */
  function CountBits(version: nat): nat {
    if version < 10 then 8 else 16
  }

  /** n payload bytes with their header fit the data codewords of the version. */
  predicate Fits(n: nat, spec: VersionSpec) {
    4 + CountBits(spec.version) + n * 8 <= DataCodewordCount(spec) * 8
  }

  /** The blocks of a version fill its codewords exactly. */
  lemma BlocksFillSymbol(spec: VersionSpec)
    requires InTable(spec)
    ensures spec.group1Blocks * (spec.group1Data + spec.ecPerBlock)
          + spec.group2Blocks * (spec.group2Data + spec.ecPerBlock) == TOTAL_CODEWORDS[spec.version - 1]
    ensures DataCodewordCount(spec) + (spec.group1Blocks + spec.group2Blocks) * spec.ecPerBlock
         == TOTAL_CODEWORDS[spec.version - 1]
  {
  }

  /** Level M: the largest payload of each version, its blocks and their check symbols. */
  lemma LevelM(i: nat, n: nat)
    requires i < 10
    ensures Fits(n, VERSIONS_M[i]) <==> n <= [14, 26, 42, 62, 84, 106, 122, 152, 180, 213][i]
    ensures VERSIONS_M[i].group1Blocks + VERSIONS_M[i].group2Blocks == [1, 1, 1, 2, 2, 4, 4, 4, 5, 5][i]
    ensures VERSIONS_M[i].ecPerBlock == [10, 16, 26, 18, 24, 16, 18, 22, 22, 26][i]
    ensures VERSIONS_M[i].group2Blocks > 0 ==> VERSIONS_M[i].group2Data == VERSIONS_M[i].group1Data + 1
  {
  }

  lemma InTableAt(i: nat)
    requires i < 10
    ensures InTable(VERSIONS_M[i]) && VERSIONS_M[i].version == i + 1
  {
  }

  /** The smallest version that holds the payload; an error when none does. */
  method ChooseVersion(byteLength: nat) returns (r: Result<VersionSpec>)
    ensures r.Ok? ==> InTable(r.value) && Fits(byteLength, r.value)
    ensures r.Ok? ==> forall i :: 0 <= i < r.value.version - 1 ==> !Fits(byteLength, VERSIONS_M[i])
    ensures r.Err? ==> r.error == PayloadTooLong
    ensures r.Err? <==> byteLength > 213
  {
    for i := 0 to 10
      invariant forall k :: 0 <= k < i ==> !Fits(byteLength, VERSIONS_M[k])
    {
      var spec := VERSIONS_M[i];
      InTableAt(i);
      var needed := 4 + (if spec.version < 10 then 8 else 16) + byteLength * 8;
      if needed <= DataCodewordCount(spec) * 8 {
        LargestPayload(byteLength, i);
        return Ok(spec);
      }
    }
    assert !Fits(byteLength, VERSIONS_M[9]);
    return Err(PayloadTooLong);
  }

  lemma LargestPayload(byteLength: nat, i: nat)
    requires i < 10 && Fits(byteLength, VERSIONS_M[i])
    ensures byteLength <= 213
  {
  }
}
