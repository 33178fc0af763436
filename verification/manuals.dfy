/** The equipment-manual catalogue: categories contain groups, groups contain
    manuals. Record shapes, their search configuration, the nested
    Category -> Group -> Manual view and the search endpoints. */
module Manuals {
  import opened Wrappers
  import opened Errors
  import opened Seqs
  import opened Text
  import opened DataManager

  /** A manual: its title, the file it points at, its cover image and the
      category and group it is filed under (foreign keys). */
  datatype ManualFields = ManualFields(
    title: string, fileUrl: string, coverImageUrl: string, categoryId: nat, groupId: nat)

  /** A category of manuals: its name and logo. */
  datatype CategoryFields = CategoryFields(name: string, logoUrl: string)

  /** A group of manuals inside one category. */
  datatype GroupFields = GroupFields(name: string, categoryId: nat)

  /** Manuals declare `title` (and no `name`), so they are searched by title. */
  function ManualAttrs(): Attrs<ManualFields>
  {
    Attrs(Some((m: ManualFields) => m.title), None)
  }

  /** Categories declare `name` only. */
  function CategoryAttrs(): Attrs<CategoryFields>
  {
    Attrs(None, Some((c: CategoryFields) => c.name))
  }

  /** Groups declare `name` only. */
  function GroupAttrs(): Attrs<GroupFields>
  {
    Attrs(None, Some((g: GroupFields) => g.name))
  }

  /** The shortest query the search endpoints accept. */
  const MinQueryLength: nat := 3

  /** The manual search endpoint: the manuals whose title contains `q`, ignoring case, in table order. */
  function SearchManuals(manuals: seq<Row<ManualFields>>, q: string): (r: Result<seq<Row<ManualFields>>, Error>)
    requires |q| >= MinQueryLength
    ensures r.Success?
    ensures SubsequenceOf(r.value, manuals)
    ensures forall m :: m in r.value <==> m in manuals && ContainsIgnoringCase(m.fields.title, q)
    ensures forall m :: m in r.value ==> |m.fields.title| >= MinQueryLength
  {
    SearchItems(manuals, ManualAttrs(), q)
  }

  /** The group search endpoint: the groups whose name contains `q`, ignoring case, in table order. */
  function SearchGroups(groups: seq<Row<GroupFields>>, q: string): (r: Result<seq<Row<GroupFields>>, Error>)
    requires |q| >= MinQueryLength
    ensures r.Success?
    ensures SubsequenceOf(r.value, groups)
    ensures forall g :: g in r.value <==> g in groups && ContainsIgnoringCase(g.fields.name, q)
    ensures forall g :: g in r.value ==> |g.fields.name| >= MinQueryLength
  {
    SearchItems(groups, GroupAttrs(), q)
  }

  /** The category search endpoint: the categories whose name contains `q`, ignoring case, in table order. */
  function SearchCategories(categories: seq<Row<CategoryFields>>, q: string): (r: Result<seq<Row<CategoryFields>>, Error>)
    requires |q| >= MinQueryLength
    ensures r.Success?
    ensures SubsequenceOf(r.value, categories)
    ensures forall c :: c in r.value <==> c in categories && ContainsIgnoringCase(c.fields.name, q)
    ensures forall c :: c in r.value ==> |c.fields.name| >= MinQueryLength
  {
    SearchItems(categories, CategoryAttrs(), q)
  }

  /** The search as written refuses a manual whose title matches, where the
      intended search returns it. */
  lemma SearchAsWrittenMissesMatch(m: Row<ManualFields>)
    requires m.fields.title == "ACS880"
    ensures SearchItemsAsWritten([m], "acs").Failure?
    ensures m in SearchManuals([m], "acs").value
  {
  }

  // ---- The nested view -------------------------------------------------

  datatype ManualNested = ManualNested(id: nat, title: string, fileUrl: string, groupId: nat)
  datatype GroupNested = GroupNested(id: nat, name: string, manuals: seq<ManualNested>)
  datatype CategoryNested = CategoryNested(id: nat, name: string, logoUrl: string, groups: seq<GroupNested>)

  /** The nested projection of one manual. */
  function NestManual(m: Row<ManualFields>): ManualNested
  {
    ManualNested(m.id, m.fields.title, m.fields.fileUrl, m.fields.groupId)
  }

  /** No manual appears twice in a nested list. */
  ghost predicate DistinctManuals(ms: seq<ManualNested>)
  {
    forall i, j :: 0 <= i < j < |ms| ==> ms[i].id != ms[j].id
  }

  /** No group appears twice in a nested list. */
  ghost predicate DistinctGroups(gs: seq<GroupNested>)
  {
    forall i, j :: 0 <= i < j < |gs| ==> gs[i].id != gs[j].id
  }

  /** The manuals filed under group `groupId`, in table order. */
  function ManualsOf(manuals: seq<Row<ManualFields>>, groupId: nat): (r: seq<Row<ManualFields>>)
    ensures forall m :: m in r <==> m in manuals && m.fields.groupId == groupId
    ensures UniqueIds(manuals) ==> UniqueIds(r)
  {
    var keep := (m: Row<ManualFields>) => m.fields.groupId == groupId;
    assert UniqueIds(manuals) ==> UniqueIds(Filter(manuals, keep)) by {
      if UniqueIds(manuals) {
        FilterKeepsUniqueIds(manuals, keep);
      }
    }
    Filter(manuals, keep)
  }

  /** The groups of category `categoryId`, in table order. */
  function GroupsOf(groups: seq<Row<GroupFields>>, categoryId: nat): (r: seq<Row<GroupFields>>)
    ensures forall g :: g in r <==> g in groups && g.fields.categoryId == categoryId
    ensures UniqueIds(groups) ==> UniqueIds(r)
  {
    var keep := (g: Row<GroupFields>) => g.fields.categoryId == categoryId;
    assert UniqueIds(groups) ==> UniqueIds(Filter(groups, keep)) by {
      if UniqueIds(groups) {
        FilterKeepsUniqueIds(groups, keep);
      }
    }
    Filter(groups, keep)
  }

  /** One group with exactly the manuals whose foreign key names it. */
  function NestGroup(g: Row<GroupFields>, manuals: seq<Row<ManualFields>>): (r: GroupNested)
    ensures r.id == g.id && r.name == g.fields.name
    ensures forall n :: n in r.manuals <==> exists m :: m in manuals && m.fields.groupId == g.id && n == NestManual(m)
    ensures UniqueIds(manuals) ==> DistinctManuals(r.manuals)
  {
    var own := ManualsOf(manuals, g.id);
    var nested := MapSeq(NestManual, own);
    forall n ensures n in nested <==> exists m :: m in own && n == NestManual(m) {
      MapSeqMembership(NestManual, own, n);
    }
    GroupNested(g.id, g.fields.name, nested)
  }

  /** One category with its groups, each carrying its manuals. */
  function NestCategory(c: Row<CategoryFields>, groups: seq<Row<GroupFields>>, manuals: seq<Row<ManualFields>>): (r: CategoryNested)
    ensures r.id == c.id && r.name == c.fields.name && r.logoUrl == c.fields.logoUrl
    ensures forall n :: n in r.groups <==> exists g :: g in groups && g.fields.categoryId == c.id && n == NestGroup(g, manuals)
    ensures (forall g :: g in groups ==> g.fields.categoryId != c.id) ==> r.groups == []
    ensures UniqueIds(groups) ==> DistinctGroups(r.groups)
    ensures UniqueIds(manuals) ==> forall n :: n in r.groups ==> DistinctManuals(n.manuals)
  {
    var own := GroupsOf(groups, c.id);
    var nest := (g: Row<GroupFields>) => NestGroup(g, manuals);
    var nested := MapSeq(nest, own);
    forall n ensures n in nested <==> exists g :: g in own && n == nest(g) {
      MapSeqMembership(nest, own, n);
    }
    assert (forall g :: g in groups ==> g.fields.categoryId != c.id) ==> own == [] by {
      if own != [] {
        assert own[0] in own;
      }
    }
    CategoryNested(c.id, c.fields.name, c.fields.logoUrl, nested)
  }

  /** `get_nested_items`: one entry per category, in table order; each carries
      exactly the groups that point at it, each group exactly its manuals, and
      a category without groups carries an empty list. */
  function GetNestedItems(categories: seq<Row<CategoryFields>>, groups: seq<Row<GroupFields>>, manuals: seq<Row<ManualFields>>): (r: seq<CategoryNested>)
    ensures |r| == |categories|
    ensures forall k :: 0 <= k < |r| ==>
      r[k].id == categories[k].id && r[k].name == categories[k].fields.name && r[k].logoUrl == categories[k].fields.logoUrl
    ensures forall k, n :: 0 <= k < |r| ==>
      (n in r[k].groups <==> exists g :: g in groups && g.fields.categoryId == categories[k].id && n == NestGroup(g, manuals))
    ensures forall k :: 0 <= k < |r| && (forall g :: g in groups ==> g.fields.categoryId != categories[k].id) ==> r[k].groups == []
    ensures UniqueIds(groups) ==> forall k :: 0 <= k < |r| ==> DistinctGroups(r[k].groups)
    ensures UniqueIds(manuals) ==> forall k, n :: 0 <= k < |r| && n in r[k].groups ==> DistinctManuals(n.manuals)
  {
    MapSeq((c: Row<CategoryFields>) => NestCategory(c, groups, manuals), categories)
  }

  /** A manual shown in the nested view is filed under a group that belongs
      to a listed category. */
  lemma NestedViewSound(categories: seq<Row<CategoryFields>>, groups: seq<Row<GroupFields>>, manuals: seq<Row<ManualFields>>,
                        k: nat, gn: GroupNested, n: ManualNested)
    requires k < |categories|
    requires gn in GetNestedItems(categories, groups, manuals)[k].groups && n in gn.manuals
    ensures exists m, g ::
      && m in manuals && g in groups
      && m.fields.groupId == g.id && g.fields.categoryId == categories[k].id
      && n == NestManual(m)
  {
  }

  /** Every manual filed under a group of a listed category is shown, inside
      that group, inside that category. */
  lemma NestedViewComplete(categories: seq<Row<CategoryFields>>, groups: seq<Row<GroupFields>>, manuals: seq<Row<ManualFields>>,
                           k: nat, g: Row<GroupFields>, m: Row<ManualFields>)
    requires k < |categories| && g in groups && m in manuals
    requires g.fields.categoryId == categories[k].id && m.fields.groupId == g.id
    ensures NestGroup(g, manuals) in GetNestedItems(categories, groups, manuals)[k].groups
    ensures NestManual(m) in NestGroup(g, manuals).manuals
  {
  }
}
