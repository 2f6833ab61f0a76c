/** The enum `ProductStatus`: three constants, each carrying a display label. */
module ProductStatuses {
  import opened Wrappers

  datatype ProductStatus = ACTIVE | INACTIVE | DISCONTINUED {

    /** `getDescription()`: the label each constant is declared with. */
    function Description(): (d: string)
      ensures d != []
      ensures this == ACTIVE ==> d == "Active"
      ensures this == INACTIVE ==> d == "Inactive"
      ensures this == DISCONTINUED ==> d == "Discontinued"
    {
      match this
      case ACTIVE => "Active"
      case INACTIVE => "Inactive"
      case DISCONTINUED => "Discontinued"
    }

    /** `toString()` is overridden to give the label. */
    function ToString(): (t: string)
      ensures t == Description()
    {
      Description()
    }
  }

  /** The constants in declaration order, as `values()` lists them. */
  const AllStatuses: seq<ProductStatus> := [ACTIVE, INACTIVE, DISCONTINUED]

  /** There are exactly three statuses. */
  lemma ExactlyThreeStatuses(st: ProductStatus)
    ensures st in AllStatuses
    ensures |AllStatuses| == 3
    ensures forall i, j :: 0 <= i < j < |AllStatuses| ==> AllStatuses[i] != AllStatuses[j]
  {
  }

  /** The status a label belongs to, if any: the inverse of `Description`. */
  function FromDescription(d: string): (r: Option<ProductStatus>)
    ensures r.Some? ==> r.value.Description() == d
  {
    if d == "Active" then Some(ACTIVE)
    else if d == "Inactive" then Some(INACTIVE)
    else if d == "Discontinued" then Some(DISCONTINUED)
    else None
  }

  /** The labels are pairwise distinct, so a label determines its status. */
  lemma DescriptionDeterminesStatus(a: ProductStatus, b: ProductStatus)
    ensures FromDescription(a.Description()) == Some(a)
    ensures a.Description() == b.Description() ==> a == b
  {
    assert "Active" != "Inactive" && "Active" != "Discontinued" && "Inactive" != "Discontinued" by {
      assert "Active"[0] == 'A' && "Inactive"[0] == 'I' && "Discontinued"[0] == 'D';
    }
  }
}
