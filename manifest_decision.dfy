/** The closing decision of `manifest` in scripts/assets.py: after comparing
    the existing manifest with a freshly created one, the new manifest is
    written only when the comparison found some difference. The records
    themselves belong to the manifest library, so their type is a parameter. */
module ManifestDecision {

  /** Python's `any` over a tuple of lists: some list is non-empty. */
  function AnyNonEmpty<T>(lists: seq<seq<T>>): (r: bool)
    ensures r <==> exists i :: 0 <= i < |lists| && lists[i] != []
    decreases |lists|
  {
    if lists == [] then false
    else AnyNonEmpty(lists[..|lists| - 1]) || lists[|lists| - 1] != []
  }

  /** Save exactly when some record is only in the old manifest, changed, or
      only in the new one. */
  function ShouldSave<T>(onlyInOld: seq<T>, changed: seq<T>, onlyInNew: seq<T>): (save: bool)
    ensures save <==> |onlyInOld| + |changed| + |onlyInNew| > 0
  {
    var lists := [onlyInOld, changed, onlyInNew];
    assert lists[0] == onlyInOld && lists[1] == changed && lists[2] == onlyInNew;
    AnyNonEmpty(lists)
  }
}
