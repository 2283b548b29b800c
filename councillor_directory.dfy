/**
 * The councillors page: the ward-tag filter, the card description and its
 * shortening, the tag badges on a card and the count label.
 */
module CouncillorDirectory {
  import opened Wrappers
  import opened Text
  import opened Seqs

  datatype Tag = Tag(id: int, name: string, color: string)

  datatype Councillor = Councillor(id: int, name: string, intro: Option<string>, bio: Option<string>, tags: Option<seq<Tag>>)

  /** `toggleTag`: the selected tag ids after clicking `tagId`. */
  function ToggleTag(selectedTags: seq<int>, tagId: int): (r: seq<int>)
    ensures tagId in r <==> tagId !in selectedTags
    ensures forall id :: id != tagId ==> (id in r <==> id in selectedTags)
    ensures tagId !in selectedTags ==> r == selectedTags + [tagId]
    ensures tagId in selectedTags ==> SubseqOf(r, selectedTags)
    ensures tagId in selectedTags ==> forall id :: multiset(r)[id] == if id == tagId then 0 else multiset(selectedTags)[id]
  {
    Toggle(selectedTags, tagId)
  }

  /** Toggling never creates a duplicate selection. */
  lemma ToggleTagKeepsNoDuplicates(selectedTags: seq<int>, tagId: int)
    requires NoDuplicates(selectedTags)
    ensures NoDuplicates(ToggleTag(selectedTags, tagId))
  {
    ToggleKeepsNoDuplicates(selectedTags, tagId);
  }

  /** Toggling the same tag twice restores the selection exactly, when it started unselected. */
  lemma ToggleTagTwice(selectedTags: seq<int>, tagId: int)
    requires tagId !in selectedTags
    ensures ToggleTag(ToggleTag(selectedTags, tagId), tagId) == selectedTags
  {
    ToggleTwiceRestores(selectedTags, tagId);
  }

  /** `councillor.tags && councillor.tags.some(tag => selectedTags.includes(tag.id))`. */
  predicate HasSelectedTag(c: Councillor, selectedTags: seq<int>) {
    c.tags.Some? && exists t :: t in c.tags.value && t.id in selectedTags
  }

  function KeepCouncillor(selectedTags: seq<int>): Councillor -> bool {
    (c: Councillor) => |selectedTags| == 0 || HasSelectedTag(c, selectedTags)
  }

  /**
   * `filteredCouncillors`: everyone while no tag is selected, otherwise the
   * councillors with at least one selected tag, in their original order.
   */
  function FilteredCouncillors(councillors: seq<Councillor>, selectedTags: seq<int>): (r: seq<Councillor>)
    ensures selectedTags == [] ==> r == councillors
    ensures forall c :: c in r <==> c in councillors && (selectedTags == [] || HasSelectedTag(c, selectedTags))
    ensures SubseqOf(r, councillors)
    ensures forall c :: multiset(r)[c] ==
              if selectedTags == [] || HasSelectedTag(c, selectedTags) then multiset(councillors)[c] else 0
  {
    var r := Filter(councillors, KeepCouncillor(selectedTags));
    FilterMultisetAll(councillors, KeepCouncillor(selectedTags));
    assert forall c :: c in r ==> KeepCouncillor(selectedTags)(c);
    r
  }

  /** `clearFilters`: the selection becomes empty. */
  function ClearFilters(): seq<int> {
    []
  }

  /** After clearing the filters every councillor is listed again, in order. */
  lemma ClearFiltersShowsEveryone(councillors: seq<Councillor>)
    ensures FilteredCouncillors(councillors, ClearFilters()) == councillors
  {
  }

  /** Selecting more tags never hides a councillor that was shown. */
  lemma FilterMonotone(councillors: seq<Councillor>, selectedTags: seq<int>, tagId: int)
    requires selectedTags != []
    ensures forall c :: c in FilteredCouncillors(councillors, selectedTags) ==>
      c in FilteredCouncillors(councillors, selectedTags + [tagId])
  {
  }

  /** `getCouncillorDescription`: `intro`, else `bio`, else the empty string. */
  function Description(c: Councillor): (r: string)
    ensures Truthy(c.intro) ==> r == c.intro.value
    ensures !Truthy(c.intro) && Truthy(c.bio) ==> r == c.bio.value
    ensures !Truthy(c.intro) && !Truthy(c.bio) ==> r == ""
  {
    if Truthy(c.intro) then c.intro.value else if Truthy(c.bio) then c.bio.value else ""
  }

  const CardTextLimit: nat := 150

  /** `truncateText` with its default limit of 150 characters. */
  function TruncateCardText(text: Option<string>): (r: string)
    ensures !Truthy(text) ==> r == ""
    ensures Truthy(text) && |text.value| <= CardTextLimit ==> r == text.value
    ensures Truthy(text) && |text.value| > CardTextLimit ==> r == text.value[..CardTextLimit] + "..."
    ensures |r| <= CardTextLimit + 3
  {
    var r := TruncateText(text, CardTextLimit);
    assert Truthy(text) && |text.value| > CardTextLimit ==> r == r[..CardTextLimit] + r[CardTextLimit..];
    r
  }

  /** The card text is a prefix of the description, followed by "..." only when it was cut. */
  lemma CardTextFromDescription(c: Councillor)
    ensures var d := Description(c); var t := TruncateCardText(Some(d));
      (|d| <= CardTextLimit ==> t == d) &&
      (|d| > CardTextLimit ==> t[..CardTextLimit] <= d && t[CardTextLimit..] == "...")
  {
  }

  /** The tag badges of a card: up to two tags, and a "+k" badge for the rest. */
  datatype Badges = Badges(shown: seq<Tag>, more: Option<nat>)

  function TagBadges(tags: Option<seq<Tag>>): (r: Badges)
    ensures tags.None? || tags.value == [] ==> r == Badges([], None)
    ensures tags.Some? ==> r.shown <= tags.value && |r.shown| <= 2
    ensures r.more.Some? <==> tags.Some? && |tags.value| > 2
    ensures tags.Some? ==> |r.shown| == (if |tags.value| < 2 then |tags.value| else 2)
    ensures r.more.Some? ==> r.more.value == |tags.value| - 2
  {
    if tags.Some? && |tags.value| > 0 then
      var ts := tags.value;
      Badges(ts[..if |ts| < 2 then |ts| else 2], if |ts| > 2 then Some(|ts| - 2) else None)
    else Badges([], None)
  }

  /** The badges account for every tag exactly once: the shown ones plus the "+k" count. */
  lemma TagBadgesCountAll(tags: Option<seq<Tag>>)
    requires tags.Some?
    ensures |TagBadges(tags).shown| + TagBadges(tags).more.GetOr(0) == |tags.value|
  {
  }
}
