/**
 * Keys that name one pivot slot of the annealing driver: the required type,
 * the tour and the position, written `type-tour-pos`, and the way the type is read back.
 */
module PivotKey {
  import opened Text

  /** The key `$"{type}-{tour}-{pos}"`. */
  function UniquePivot(poiType: string, tour: int, pos: int): (key: string)
    ensures key == poiType + "-" + IntToString(tour) + "-" + IntToString(pos)
    ensures poiType <= key && key[|poiType|] == '-'
  {
    poiType + "-" + IntToString(tour) + "-" + IntToString(pos)
  }

  /** `key.Split('-')[0]`: the text in front of the first dash, or all of `key` when it has none. */
  function ExtractPivot(key: string): (prefix: string)
    ensures prefix <= key
    ensures '-' !in prefix
    ensures |prefix| < |key| ==> key[|prefix|] == '-'
  {
    SplitHead(key, '-');
    Split(key, '-')[0]
  }

  /** A key without a dash is returned unchanged. */
  lemma ExtractPivotNoDash(key: string)
    requires '-' !in key
    ensures ExtractPivot(key) == key
  {
  }

  /** For a type without a dash the key decodes to that type, whatever the sign of tour and position. */
  lemma PivotRoundTrip(poiType: string, tour: int, pos: int)
    requires '-' !in poiType
    ensures ExtractPivot(UniquePivot(poiType, tour, pos)) == poiType
  {
    var key := UniquePivot(poiType, tour, pos);
    SplitAtFirst(poiType, '-', key[|poiType| + 1..]);
    assert key == poiType + ['-'] + key[|poiType| + 1..];
  }

  /** For a type holding a dash the round trip yields only its part before the first dash. */
  lemma PivotRoundTripDashedType(poiType: string, tour: int, pos: int, cut: nat)
    requires cut < |poiType| && poiType[cut] == '-' && '-' !in poiType[..cut]
    ensures ExtractPivot(UniquePivot(poiType, tour, pos)) == poiType[..cut]
    ensures |ExtractPivot(UniquePivot(poiType, tour, pos))| < |poiType|
  {
    var key := UniquePivot(poiType, tour, pos);
    assert key == poiType[..cut] + ['-'] + key[cut + 1..];
    SplitAtFirst(poiType[..cut], '-', key[cut + 1..]);
  }
}
