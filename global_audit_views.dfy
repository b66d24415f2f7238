/**
 * The three tabs of the document review in app/components/global_audit.py:
 * the filtered "All" list, the links from logic issues to sections, and the
 * issues grouped by section.
 */
module GlobalAuditViews {
  import opened Wrappers
  import opened Text
  import opened Models
  import opened Sorting
  import opened StateManager
  import opened GlobalAudit

  // ---- All tab: normalising and filtering ----

  /** A finding of either kind, as the All tab lists it. */
  datatype ReviewItem =
    | LogicItem(severity: string, title: string, description: string, relatedSections: seq<string>)
    | SectionItem(severity: string, title: string, description: string, sectionId: string)

  /** A logic issue always reads as "Medium". */
  function NormalizeLogic(g: GlobalIssueRecord): ReviewItem {
    LogicItem("Medium", g.title.GetOr("Logic issue"), g.description.GetOr(""), g.relatedSections.GetOr([]))
  }

  /** A section issue keeps its severity, "Low" when it has none. */
  function NormalizeSection(x: SectionIssue): ReviewItem {
    SectionItem(x.issue.severity.GetOr("Low"), x.sectionTitle, DescriptionOf(x.issue), x.sectionId)
  }

  function NormalizeLogics(gs: seq<GlobalIssueRecord>): (r: seq<ReviewItem>)
    ensures |r| == |gs|
    ensures forall k :: 0 <= k < |gs| ==> r[k] == NormalizeLogic(gs[k])
  {
    if gs == [] then [] else [NormalizeLogic(gs[0])] + NormalizeLogics(gs[1..])
  }

  function NormalizeSections(ss: seq<SectionIssue>): (r: seq<ReviewItem>)
    ensures |r| == |ss|
    ensures forall k :: 0 <= k < |ss| ==> r[k] == NormalizeSection(ss[k])
  {
    if ss == [] then [] else [NormalizeSection(ss[0])] + NormalizeSections(ss[1..])
  }

  /** The logic issues first, then the section issues. */
  function NormalizedSpec(gs: seq<GlobalIssueRecord>, ss: seq<SectionIssue>): seq<ReviewItem> {
    NormalizeLogics(gs) + NormalizeSections(ss)
  }

  /** The controls above the tabs; `query` is the search box text as typed. */
  datatype Filters = Filters(severities: seq<string>, onlyLinked: bool, query: string)

  /** The search box text as it is compared: `.strip().lower()`. */
  function NormalizeQuery(raw: string): string {
    Lower(Trim(raw))
  }

  /** A logic item is linked when it names a section, a section item when it
      has a non-empty id. */
  predicate HasLink(it: ReviewItem) {
    if it.LogicItem? then it.relatedSections != [] else it.sectionId != ""
  }

  /** An item passes the filters: its severity is selected, it is linked
      when only linked items are wanted, and the normalised query is empty or
      occurs in its lowered title and description. */
  predicate Shown(it: ReviewItem, f: Filters) {
    && it.severity in f.severities
    && (f.onlyLinked ==> HasLink(it))
    && (NormalizeQuery(f.query) == "" || Contains(Lower(it.title + " " + it.description), NormalizeQuery(f.query)))
  }

  /** The items that pass the filters, in their original order. */
  function FilterSpec(items: seq<ReviewItem>, f: Filters): seq<ReviewItem> {
    if items == [] then []
    else FilterSpec(items[..|items| - 1], f) + (if Shown(items[|items| - 1], f) then [items[|items| - 1]] else [])
  }

  /** `filtered.sort(...)`'s key: the severity rank alone. */
  function RankKey(it: ReviewItem): SortKey {
    SortKey(SeverityRank(Some(it.severity)), "", "")
  }

  /** The All tab: normalise, filter, then sort by severity rank. */
  method AllTabItems(gs: seq<GlobalIssueRecord>, ss: seq<SectionIssue>, f: Filters) returns (filtered: seq<ReviewItem>)
    ensures filtered == SortBy(FilterSpec(NormalizedSpec(gs, ss), f), RankKey)
  {
    var normalized := NormalizeItems(gs, ss);
    filtered := FilterItems(normalized, f);
    filtered := SortBy(filtered, RankKey);
  }

  /** The two normalising loops of the All tab. */
  method NormalizeItems(gs: seq<GlobalIssueRecord>, ss: seq<SectionIssue>) returns (normalized: seq<ReviewItem>)
    ensures normalized == NormalizedSpec(gs, ss)
  {
    normalized := [];
    var i := 0;
    while i < |gs|
      invariant 0 <= i <= |gs| && |normalized| == i
      invariant forall k :: 0 <= k < i ==> normalized[k] == NormalizeLogic(gs[k])
    {
      normalized := normalized + [NormalizeLogic(gs[i])];
      i := i + 1;
    }
    i := 0;
    while i < |ss|
      invariant 0 <= i <= |ss| && |normalized| == |gs| + i
      invariant forall k :: 0 <= k < |gs| ==> normalized[k] == NormalizeLogic(gs[k])
      invariant forall k :: 0 <= k < i ==> normalized[|gs| + k] == NormalizeSection(ss[k])
    {
      normalized := normalized + [NormalizeSection(ss[i])];
      i := i + 1;
    }
  }

  /** The filtering loop of the All tab. */
  method FilterItems(items: seq<ReviewItem>, f: Filters) returns (filtered: seq<ReviewItem>)
    ensures filtered == FilterSpec(items, f)
  {
    var query := NormalizeQuery(f.query);
    filtered := [];
    var i := 0;
    while i < |items|
      invariant 0 <= i <= |items|
      invariant filtered == FilterSpec(items[..i], f)
    {
      var it := items[i];
      assert items[..i + 1][..i] == items[..i];
      assert items[..i + 1][i] == it;
      if it.severity in f.severities
         && !(f.onlyLinked && it.LogicItem? && it.relatedSections == [])
         && !(f.onlyLinked && it.SectionItem? && it.sectionId == "")
         && (query == "" || Contains(Lower(it.title + " " + it.description), query))
      {
        filtered := filtered + [it];
      }
      i := i + 1;
    }
    assert items[..i] == items;
  }

  lemma {:induction false} FilterSpecMembers(items: seq<ReviewItem>, f: Filters)
    ensures |FilterSpec(items, f)| <= |items|
    ensures forall x :: x in FilterSpec(items, f) <==> x in items && Shown(x, f)
  {
    if items != [] {
      var n := |items| - 1;
      FilterSpecMembers(items[..n], f);
      assert items == items[..n] + [items[n]];
    }
  }

  /** Filtering preserves order: the filter of a concatenation is the
      concatenation of the filters. */
  lemma {:induction false} FilterSpecAppend(a: seq<ReviewItem>, b: seq<ReviewItem>, f: Filters)
    ensures FilterSpec(a + b, f) == FilterSpec(a, f) + FilterSpec(b, f)
    decreases |b|
  {
    if b == [] {
      assert a + b == a;
    } else {
      var n := |b| - 1;
      FilterSpecAppend(a, b[..n], f);
      assert (a + b)[..|a + b| - 1] == a + b[..n];
      assert (a + b)[|a + b| - 1] == b[n];
    }
  }

  /** Every logic item is "Medium"; a section item without severity is
      "Low"; there is one item per issue, logic issues first. */
  lemma NormalizedShape(gs: seq<GlobalIssueRecord>, ss: seq<SectionIssue>)
    ensures |NormalizedSpec(gs, ss)| == |gs| + |ss|
    ensures forall x :: x in NormalizedSpec(gs, ss) && x.LogicItem? ==> x.severity == "Medium"
    ensures forall k :: 0 <= k < |gs| ==> NormalizedSpec(gs, ss)[k].LogicItem?
    ensures forall k :: 0 <= k < |ss| ==>
      (NormalizedSpec(gs, ss)[|gs| + k].SectionItem?
       && (ss[k].issue.severity.None? ==> NormalizedSpec(gs, ss)[|gs| + k].severity == "Low"))
  {
  }

  /** The All tab shows exactly the normalised items that pass every filter,
      as a permutation of the filtered list, ordered by severity rank, with
      items of equal rank in their original order. */
  lemma AllTabCorrect(gs: seq<GlobalIssueRecord>, ss: seq<SectionIssue>, f: Filters)
    ensures var r := SortBy(FilterSpec(NormalizedSpec(gs, ss), f), RankKey);
      (forall x :: x in r <==> x in NormalizedSpec(gs, ss) && Shown(x, f))
      && multiset(r) == multiset(FilterSpec(NormalizedSpec(gs, ss), f))
      && (forall i, j :: 0 <= i < j < |r| ==> SeverityRank(Some(r[i].severity)) <= SeverityRank(Some(r[j].severity)))
    ensures forall k :: WithKey(SortBy(FilterSpec(NormalizedSpec(gs, ss), f), RankKey), RankKey, k)
                        == WithKey(FilterSpec(NormalizedSpec(gs, ss), f), RankKey, k)
  {
    var t := FilterSpec(NormalizedSpec(gs, ss), f);
    FilterSpecMembers(NormalizedSpec(gs, ss), f);
    SortByCorrect(t, RankKey);
    var r := SortBy(t, RankKey);
    forall x ensures x in r <==> x in t {
      assert x in r <==> x in multiset(r);
    }
    forall i, j | 0 <= i < j < |r|
      ensures SeverityRank(Some(r[i].severity)) <= SeverityRank(Some(r[j].severity))
    {
      assert KeyLe(RankKey(r[i]), RankKey(r[j]));
    }
    forall k ensures WithKey(r, RankKey, k) == WithKey(t, RankKey, k) {
      SortByStable(t, RankKey, k);
    }
  }

  /** The severity test and the query can each hide an item on its own: a
      search box holding only whitespace hides nothing, and an item whose
      severity is not selected is never shown. */
  lemma FilterRules(it: ReviewItem, f: Filters)
    ensures it.severity !in f.severities ==> !Shown(it, f)
    ensures AllSpace(f.query) && !f.onlyLinked ==> (Shown(it, f) <==> it.severity in f.severities)
    ensures f.onlyLinked && !HasLink(it) ==> !Shown(it, f)
  {
    TrimEmptyIffBlank(f.query);
  }

  /** The search ignores case and surrounding whitespace: " Foo " finds an
      item titled "foo". */
  lemma SearchIgnoresCaseAndSpace()
    ensures NormalizeQuery(" Foo ") == "foo"
    ensures Shown(LogicItem("Medium", "foo", "", []), Filters(["Medium"], false, " Foo "))
  {
    assert TrimLeft(" Foo ") == "Foo ";
    assert TrimRight("Foo ") == "Foo";
    assert Lower("Foo") == "foo";
    assert "foo" <= Lower("foo" + " " + "");
  }

  // ---- Links from section names ----

  /** Index of the first section whose title is exactly `name`. */
  function FindByTitle(sections: seq<Section>, name: string): (r: Option<nat>)
    ensures r.Some? ==> r.value < |sections| && sections[r.value].meta.title == name
                        && forall j :: 0 <= j < r.value ==> sections[j].meta.title != name
    ensures r.None? ==> forall j :: 0 <= j < |sections| ==> sections[j].meta.title != name
  {
    if sections == [] then None
    else if sections[0].meta.title == name then Some(0)
    else match FindByTitle(sections[1..], name)
      case None => None
      case Some(k) => Some(k + 1)
  }

  /** A related section name: an anchor to its section, or plain text. */
  datatype SectionRef = Linked(name: string, anchor: string) | Unlinked(name: string)

  /** The first section with that exact title, if it has an id. */
  function RelatedRef(sections: seq<Section>, name: string): SectionRef {
    match FindByTitle(sections, name)
    case Some(i) => if sections[i].id != "" then Linked(name, "#section-" + sections[i].id) else Unlinked(name)
    case None => Unlinked(name)
  }

  /** The "Affects:" list of a logic item in the All tab. */
  function RelatedRefs(sections: seq<Section>, related: seq<string>): (r: seq<SectionRef>)
    ensures |r| == |related|
    ensures forall k :: 0 <= k < |related| ==> r[k] == RelatedRef(sections, related[k])
  {
    if related == [] then [] else [RelatedRef(sections, related[0])] + RelatedRefs(sections, related[1..])
  }

  /** The Logic tab's direct jump, offered only for a single related section. */
  function LogicJump(sections: seq<Section>, related: seq<string>): Option<(string, string)> {
    if |related| != 1 then None
    else match RelatedRef(sections, related[0])
      case Linked(n, a) => Some(("Jump to “" + n + "”", a))
      case Unlinked(_) => None
  }

  lemma FirstTitleMatch(sections: seq<Section>, name: string, i: nat)
    requires i < |sections| && sections[i].meta.title == name
    requires forall j :: 0 <= j < i ==> sections[j].meta.title != name
    ensures FindByTitle(sections, name) == Some(i)
  {
    var r := FindByTitle(sections, name);
    assert r.Some?;
    assert sections[r.value].meta.title == name;
  }

  /** A name links to the first section carrying exactly that title (when
      that section has an id); a name no section carries stays plain text,
      and the name itself is always kept. */
  lemma RelatedRefFirstMatch(sections: seq<Section>, name: string)
    ensures RelatedRef(sections, name).name == name
    ensures (forall j :: 0 <= j < |sections| ==> sections[j].meta.title != name) ==>
      RelatedRef(sections, name) == Unlinked(name)
    ensures forall i :: 0 <= i < |sections| && sections[i].meta.title == name
                        && (forall j :: 0 <= j < i ==> sections[j].meta.title != name) ==>
      RelatedRef(sections, name) ==
        (if sections[i].id != "" then Linked(name, "#section-" + sections[i].id) else Unlinked(name))
  {
    forall i | 0 <= i < |sections| && sections[i].meta.title == name
               && (forall j :: 0 <= j < i ==> sections[j].meta.title != name)
      ensures RelatedRef(sections, name) ==
        (if sections[i].id != "" then Linked(name, "#section-" + sections[i].id) else Unlinked(name))
    {
      FirstTitleMatch(sections, name, i);
    }
  }

  /** A jump appears only for exactly one related name, and then exactly
      when that name links. */
  lemma LogicJumpRule(sections: seq<Section>, related: seq<string>)
    ensures LogicJump(sections, related).Some? <==> |related| == 1 && RelatedRef(sections, related[0]).Linked?
    ensures LogicJump(sections, related).Some? ==> LogicJump(sections, related).value.1 == RelatedRef(sections, related[0]).anchor
  {
  }

  // ---- By-section tab: grouping ----

  /** The group of a section issue: its section id, or "unknown". */
  function GroupKey(x: SectionIssue): string {
    if x.sectionId != "" then x.sectionId else "unknown"
  }

  /** One entry of `grouped`, with its `title_by_id` title. */
  datatype Group = Group(key: string, title: string, items: seq<SectionIssue>)

  function FindGroup(gs: seq<Group>, key: string): (r: Option<nat>)
    ensures r.Some? ==> r.value < |gs| && gs[r.value].key == key
    ensures r.None? ==> forall j :: 0 <= j < |gs| ==> gs[j].key != key
  {
    if gs == [] then None
    else if gs[0].key == key then Some(0)
    else match FindGroup(gs[1..], key)
      case None => None
      case Some(k) => Some(k + 1)
  }

  /** One step of the grouping loop: append to the item's group (creating it
      at the end the first time) and overwrite the group's title. */
  function AddToGroups(gs: seq<Group>, x: SectionIssue): seq<Group> {
    var key := GroupKey(x);
    match FindGroup(gs, key)
    case Some(i) => gs[i := Group(key, x.sectionTitle, gs[i].items + [x])]
    case None => gs + [Group(key, x.sectionTitle, [x])]
  }

  /** `grouped` and `title_by_id` after the loop, keys in first-seen order. */
  function GroupSpec(s: seq<SectionIssue>): seq<Group> {
    if s == [] then [] else AddToGroups(GroupSpec(s[..|s| - 1]), s[|s| - 1])
  }

  /** The grouping loop. */
  method GroupBySection(s: seq<SectionIssue>) returns (groups: seq<Group>)
    ensures groups == GroupSpec(s)
  {
    groups := [];
    var i := 0;
    while i < |s|
      invariant 0 <= i <= |s|
      invariant groups == GroupSpec(s[..i])
    {
      var key := if s[i].sectionId != "" then s[i].sectionId else "unknown";
      var at := FindGroup(groups, key);
      if at.Some? {
        groups := groups[at.value := Group(key, s[i].sectionTitle, groups[at.value].items + [s[i]])];
      } else {
        groups := groups + [Group(key, s[i].sectionTitle, [s[i]])];
      }
      assert s[..i + 1][..i] == s[..i];
      i := i + 1;
    }
    assert s[..i] == s;
  }

  /** The issues whose group key is `k`, in order. */
  function ItemsWithKey(s: seq<SectionIssue>, k: string): seq<SectionIssue> {
    if s == [] then []
    else ItemsWithKey(s[..|s| - 1], k) + (if GroupKey(s[|s| - 1]) == k then [s[|s| - 1]] else [])
  }

  predicate KeysDistinct(gs: seq<Group>) {
    forall i, j :: 0 <= i < j < |gs| ==> gs[i].key != gs[j].key
  }

  /** The groups partition the issues: keys are distinct, each group holds,
      in order, exactly the issues with its key, no group is empty, its title
      is that of the last issue added, and every issue has its group. */
  predicate Partitions(gs: seq<Group>, s: seq<SectionIssue>) {
    && KeysDistinct(gs)
    && (forall i :: 0 <= i < |gs| ==> GroupExact(gs[i], s))
    && (forall m :: 0 <= m < |s| ==> FindGroup(gs, GroupKey(s[m])).Some?)
  }

  /** A group holds, in order, exactly the issues with its key, is not
      empty, and carries the title of the last issue added. */
  predicate GroupExact(g: Group, s: seq<SectionIssue>) {
    g.items == ItemsWithKey(s, g.key) && g.items != []
    && g.title == g.items[|g.items| - 1].sectionTitle
  }

  lemma {:induction false} ItemsWithKeyEmpty(s: seq<SectionIssue>, k: string)
    requires forall m :: 0 <= m < |s| ==> GroupKey(s[m]) != k
    ensures ItemsWithKey(s, k) == []
  {
    if s != [] {
      var n := |s| - 1;
      assert forall m :: 0 <= m < n ==> s[..n][m] == s[m];
      ItemsWithKeyEmpty(s[..n], k);
    }
  }

  lemma {:induction false} GroupSpecPartitions(s: seq<SectionIssue>)
    ensures Partitions(GroupSpec(s), s)
  {
    if s != [] {
      var n := |s| - 1;
      GroupSpecPartitions(s[..n]);
      assert s == s[..n] + [s[n]];
      AddKeepsPartition(GroupSpec(s[..n]), s[..n], s[n]);
    }
  }

  lemma ItemsWithKeySnoc(pre: seq<SectionIssue>, x: SectionIssue, k: string)
    ensures ItemsWithKey(pre + [x], k) == ItemsWithKey(pre, k) + (if GroupKey(x) == k then [x] else [])
  {
    assert (pre + [x])[..|pre|] == pre;
  }

  /** One grouping step keeps the partition. */
  lemma AddKeepsPartition(gs: seq<Group>, pre: seq<SectionIssue>, x: SectionIssue)
    requires Partitions(gs, pre)
    ensures Partitions(AddToGroups(gs, x), pre + [x])
  {
    var r := AddToGroups(gs, x);
    CoverageAfterAdd(gs, pre, x, r);
    GroupsAfterAdd(gs, pre, x);
  }

  /** The keys stay distinct and every group stays exact after one step. */
  lemma GroupsAfterAdd(gs: seq<Group>, pre: seq<SectionIssue>, x: SectionIssue)
    requires Partitions(gs, pre)
    ensures var r := AddToGroups(gs, x);
      KeysDistinct(r) && forall j :: 0 <= j < |r| ==> GroupExact(r[j], pre + [x])
  {
    match FindGroup(gs, GroupKey(x)) {
      case Some(i) =>
        AddToExistingGroup(gs, pre, x, i);
      case None =>
        AddNewGroup(gs, pre, x);
    }
  }

  lemma AddToExistingGroup(gs: seq<Group>, pre: seq<SectionIssue>, x: SectionIssue, i: nat)
    requires KeysDistinct(gs) && forall j :: 0 <= j < |gs| ==> GroupExact(gs[j], pre)
    requires i < |gs| && gs[i].key == GroupKey(x)
    ensures var r := gs[i := Group(GroupKey(x), x.sectionTitle, gs[i].items + [x])];
      KeysDistinct(r) && forall j :: 0 <= j < |r| ==> GroupExact(r[j], pre + [x])
  {
    var key := GroupKey(x);
    var r := gs[i := Group(key, x.sectionTitle, gs[i].items + [x])];
    forall j | 0 <= j < |r| ensures GroupExact(r[j], pre + [x]) {
      ItemsWithKeySnoc(pre, x, r[j].key);
      if j == i {
        assert GroupExact(gs[i], pre);
      } else {
        assert gs[j].key != key by {
          if j < i { assert gs[j].key != gs[i].key; } else { assert gs[i].key != gs[j].key; }
        }
        assert r[j] == gs[j];
        assert GroupExact(gs[j], pre);
      }
    }
    assert forall j :: 0 <= j < |r| ==> r[j].key == gs[j].key;
  }

  lemma AddNewGroup(gs: seq<Group>, pre: seq<SectionIssue>, x: SectionIssue)
    requires Partitions(gs, pre)
    requires forall j :: 0 <= j < |gs| ==> gs[j].key != GroupKey(x)
    ensures var r := gs + [Group(GroupKey(x), x.sectionTitle, [x])];
      KeysDistinct(r) && forall j :: 0 <= j < |r| ==> GroupExact(r[j], pre + [x])
  {
    var key := GroupKey(x);
    var r := gs + [Group(key, x.sectionTitle, [x])];
    forall m | 0 <= m < |pre| ensures GroupKey(pre[m]) != key {
      var j :| 0 <= j < |gs| && gs[j].key == GroupKey(pre[m]);
    }
    ItemsWithKeyEmpty(pre, key);
    forall j | 0 <= j < |r| ensures GroupExact(r[j], pre + [x]) {
      ItemsWithKeySnoc(pre, x, r[j].key);
      if j < |gs| {
        assert r[j] == gs[j];
        assert GroupExact(gs[j], pre);
      }
    }
  }

  /** Keys already present stay present, and the new item's key is present. */
  lemma CoverageAfterAdd(gs: seq<Group>, pre: seq<SectionIssue>, x: SectionIssue, r: seq<Group>)
    requires forall m :: 0 <= m < |pre| ==> FindGroup(gs, GroupKey(pre[m])).Some?
    requires r == AddToGroups(gs, x)
    ensures forall m :: 0 <= m < |pre + [x]| ==> FindGroup(r, GroupKey((pre + [x])[m])).Some?
  {
    var s := pre + [x];
    assert |r| >= |gs| && forall j :: 0 <= j < |gs| ==> r[j].key == gs[j].key;
    forall m | 0 <= m < |s| ensures FindGroup(r, GroupKey(s[m])).Some? {
      var key := GroupKey(s[m]);
      if m < |pre| {
        assert s[m] == pre[m];
        var j := FindGroup(gs, key).value;
        assert r[j].key == key;
      } else {
        match FindGroup(gs, GroupKey(x))
        case Some(i) => assert r[i].key == key;
        case None => assert r[|gs|].key == key;
      }
    }
  }

  /** `worst_rank`: the least severity rank among the items (2, the last
      rank, for no items). */
  function WorstRank(items: seq<SectionIssue>): nat {
    if items == [] then 2
    else var rest := WorstRank(items[1..]);
      var here := SeverityRank(items[0].issue.severity);
      if here <= rest then here else rest
  }

  lemma {:induction false} WorstRankIsMinimum(items: seq<SectionIssue>)
    requires items != []
    ensures exists k :: 0 <= k < |items| && WorstRank(items) == SeverityRank(items[k].issue.severity)
    ensures forall k :: 0 <= k < |items| ==> WorstRank(items) <= SeverityRank(items[k].issue.severity)
  {
    SeverityRankCases(items[0].issue.severity);
    if |items| > 1 {
      WorstRankIsMinimum(items[1..]);
      var k :| 0 <= k < |items[1..]| && WorstRank(items[1..]) == SeverityRank(items[1..][k].issue.severity);
      assert items[1..][k] == items[k + 1];
      forall m | 0 <= m < |items| ensures WorstRank(items) <= SeverityRank(items[m].issue.severity) {
        if m > 0 { assert items[1..][m - 1] == items[m]; }
      }
    } else {
      assert WorstRank(items[1..]) == 2;
    }
  }

  /** The key the groups are sorted by: worst rank, then title. */
  function GroupOrderKey(g: Group): SortKey {
    SortKey(WorstRank(g.items), g.title, "")
  }

  /** `sec_items`: the groups in (worst rank, title) order. */
  function OrderGroups(gs: seq<Group>): seq<Group> {
    SortBy(gs, GroupOrderKey)
  }

  lemma OrderGroupsCorrect(gs: seq<Group>)
    ensures multiset(OrderGroups(gs)) == multiset(gs)
    ensures forall i, j :: 0 <= i < j < |OrderGroups(gs)| ==>
      KeyLe(GroupOrderKey(OrderGroups(gs)[i]), GroupOrderKey(OrderGroups(gs)[j]))
    ensures forall k :: WithKey(OrderGroups(gs), GroupOrderKey, k) == WithKey(gs, GroupOrderKey, k)
  {
    SortByCorrect(gs, GroupOrderKey);
    forall k ensures WithKey(OrderGroups(gs), GroupOrderKey, k) == WithKey(gs, GroupOrderKey, k) {
      SortByStable(gs, GroupOrderKey, k);
    }
  }

  /** What the expander of one group shows. */
  datatype GroupPanel = GroupPanel(title: string, count: nat, worst: string, expanded: bool,
                                   items: seq<SectionIssue>, jump: Option<string>)

  function PanelFor(g: Group): GroupPanel {
    var sorted := SortIssues(g.items);
    var worst := if sorted != [] then sorted[0].issue.severity.GetOr("Low") else "Low";
    GroupPanel(g.title, |sorted|, worst, worst == "High", sorted,
               if g.key != "unknown" then Some("#section-" + g.key) else None)
  }

  /** The "Worst" label of a group has the group's least rank, so the
      expander opens exactly when some issue in it is "High"; the panel lists
      every issue of the group. */
  lemma PanelWorstIsMinimum(g: Group)
    requires g.items != []
    ensures SeverityRank(Some(PanelFor(g).worst)) == WorstRank(g.items)
    ensures PanelFor(g).expanded <==> exists k :: 0 <= k < |g.items| && g.items[k].issue.severity == Some("High")
    ensures PanelFor(g).count == |g.items| && multiset(PanelFor(g).items) == multiset(g.items)
  {
    var sorted := SortIssues(g.items);
    SortIssuesCorrect(g.items);
    assert sorted[0] in multiset(g.items);
    var h := sorted[0];
    SeverityRankCases(h.issue.severity);
    WorstRankIsMinimum(g.items);
    var k0 :| 0 <= k0 < |g.items| && g.items[k0] == h;
    forall k | 0 <= k < |g.items| ensures SeverityRank(h.issue.severity) <= SeverityRank(g.items[k].issue.severity) {
      assert g.items[k] in multiset(sorted);
      var j :| 0 <= j < |sorted| && sorted[j] == g.items[k];
      SortedHeadIsLeast(sorted, IssueKey, j);
    }
    var m :| 0 <= m < |g.items| && WorstRank(g.items) == SeverityRank(g.items[m].issue.severity);
    if exists k :: 0 <= k < |g.items| && g.items[k].issue.severity == Some("High") {
      var k :| 0 <= k < |g.items| && g.items[k].issue.severity == Some("High");
      SeverityRankCases(g.items[k].issue.severity);
    }
  }
}
