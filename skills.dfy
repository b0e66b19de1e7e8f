/**
 * The skills filter: clicking a `.skill-category` makes it the only active
 * category and shows exactly the `.skill-group`s whose `data-group` equals
 * the clicked category's `data-category`.
 */
module Skills {
  import opened Wrappers

  /** A category button: its `data-category` attribute (null when absent) and whether it is active. */
  datatype Category = Category(target: Option<string>, active: bool)

  /** A skill group: its `data-group` attribute (null when absent) and whether it is shown. */
  datatype SkillGroup = SkillGroup(group: Option<string>, active: bool)

  /** The indices of the active categories. */
  function ActiveCategories(categories: seq<Category>): (active: set<nat>)
  {
    set j: nat | j < |categories| && categories[j].active
  }

  class SkillsManager {
    var categories: seq<Category>
    var groups: seq<SkillGroup>

    constructor (cats: seq<Category>, grps: seq<SkillGroup>)
      ensures categories == cats && groups == grps
    {
      categories := cats;
      groups := grps;
    }

    /**
     * The click handler of category `k`: it alone is active afterwards, the
     * shown groups are exactly those matching its target (`===`, so a missing
     * `data-group` matches a missing `data-category`), and no attribute changes.
     */
    method ClickCategory(k: nat)
      requires k < |categories|
      modifies this`categories, this`groups
      ensures |categories| == |old(categories)| && |groups| == |old(groups)|
      ensures forall j :: 0 <= j < |categories| ==> categories[j].target == old(categories)[j].target
      ensures forall j :: 0 <= j < |groups| ==> groups[j].group == old(groups)[j].group
      ensures forall j :: 0 <= j < |categories| ==> categories[j].active == (j == k)
      ensures ActiveCategories(categories) == {k}
      ensures |ActiveCategories(categories)| == 1
      ensures forall j :: 0 <= j < |groups| ==> (groups[j].active <==> groups[j].group == categories[k].target)
    {
      var targetGroup := categories[k].target;
      var i := 0;
      while i < |categories|
        modifies this`categories
        invariant 0 <= i <= |categories| == |old(categories)|
        invariant forall j :: 0 <= j < |categories| ==> categories[j].target == old(categories)[j].target
        invariant forall j :: 0 <= j < i ==> !categories[j].active
      {
        categories := categories[i := categories[i].(active := false)];
        i := i + 1;
      }
      categories := categories[k := categories[k].(active := true)];
      i := 0;
      while i < |groups|
        modifies this`groups
        invariant 0 <= i <= |groups| == |old(groups)|
        invariant forall j :: 0 <= j < |groups| ==> groups[j].group == old(groups)[j].group
        invariant forall j :: 0 <= j < i ==> (groups[j].active <==> groups[j].group == targetGroup)
      {
        groups := groups[i := groups[i].(active := false)];
        if groups[i].group == targetGroup {
          groups := groups[i := groups[i].(active := true)];
        }
        i := i + 1;
      }
      OneActiveAfterClick(categories, k);
    }
  }

  /** When only category `k` is active, exactly one category is active: what a click leaves behind. */
  lemma {:induction false} OneActiveAfterClick(categories: seq<Category>, k: nat)
    requires k < |categories|
    requires forall j :: 0 <= j < |categories| ==> categories[j].active == (j == k)
    ensures |ActiveCategories(categories)| == 1
  {
    assert ActiveCategories(categories) == {k};
  }
}
