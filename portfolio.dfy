/**
  The portfolio grid filter: each item carries a space-separated list of
  categories, and an item is shown for the chosen filter when the filter is
  "all" or is one of the item's categories.
 */
module Portfolio {
  import opened Text

  /** Whether an item with category attribute `dataCategory` is shown for `filter`. */
  function ShouldShow(filter: string, dataCategory: string): (show: bool)
    ensures filter == "all" ==> show
    ensures filter != "all" && ' ' in filter ==> !show
  {
    filter == "all" || filter in Split(dataCategory, ' ')
  }

  /**
    For an attribute written as the categories joined by single spaces, an
    item is shown exactly when the filter is "all" or one of its categories.
   */
  lemma ShowIffListedCategory(filter: string, categories: seq<string>)
    requires |categories| >= 1
    requires forall c :: c in categories ==> ' ' !in c
    ensures ShouldShow(filter, Join(categories, ' ')) <==> filter == "all" || filter in categories
  {
    SplitJoin(categories, ' ');
  }
}
