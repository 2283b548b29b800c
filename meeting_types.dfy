/**
 * The meetings page: the allow-list of meeting types shown, the icon chosen
 * for each type, and the per-type meeting count label.
 */
module MeetingTypes {
  import opened Text
  import opened Seqs

  datatype MeetingType = MeetingType(id: int, name: string, meetingCount: int)

  const AllowedMeetingTypes: seq<string> := [
    "Annual Town Meeting",
    "Community and Recreation",
    "Finance and Governance",
    "Full Council Meetings",
    "Planning and Development"]

  function IsAllowed(): MeetingType -> bool {
    (t: MeetingType) => t.name in AllowedMeetingTypes
  }

  /** Only the five listed types are kept (names matched exactly), in the order received. */
  function AllowedTypes(data: seq<MeetingType>): (r: seq<MeetingType>)
    ensures forall t :: t in r <==> t in data && t.name in AllowedMeetingTypes
    ensures SubseqOf(r, data)
    ensures |r| <= |data|
    ensures forall t :: multiset(r)[t] == if t.name in AllowedMeetingTypes then multiset(data)[t] else 0
  {
    var r := Filter(data, IsAllowed());
    FilterMultisetAll(data, IsAllowed());
    assert forall t :: t in r ==> IsAllowed()(t);
    r
  }

  /** Filtering an already filtered list changes nothing. */
  lemma AllowedTypesIdempotent(data: seq<MeetingType>)
    ensures AllowedTypes(AllowedTypes(data)) == AllowedTypes(data)
  {
    var r := AllowedTypes(data);
    assert forall t :: t in r ==> IsAllowed()(t);
  }

  datatype Icon = Users | FileText | Calendar

  /** `getIconForMeetingType`: the first keyword found in the lower-cased name decides. */
  function IconFor(name: string): (r: Icon)
    ensures r == FileText <==> !Contains(Lower(name), "full council") && Contains(Lower(name), "planning")
    ensures r == Users <==> (Contains(Lower(name), "full council") ||
      (!Contains(Lower(name), "planning") && !Contains(Lower(name), "finance") && Contains(Lower(name), "community")))
  {
    var lowerName := Lower(name);
    if Contains(lowerName, "full council") then Users
    else if Contains(lowerName, "planning") then FileText
    else if Contains(lowerName, "finance") then Calendar
    else if Contains(lowerName, "community") then Users
    else Calendar
  }

  /** A name mentioning none of the keywords gets the calendar icon. */
  lemma IconDefault(name: string)
    requires !Contains(Lower(name), "full council") && !Contains(Lower(name), "planning")
    requires !Contains(Lower(name), "finance") && !Contains(Lower(name), "community")
    ensures IconFor(name) == Calendar
  {
  }

  /** The icon does not depend on the case of the name. */
  lemma IconIgnoresCase(name: string)
    ensures IconFor(Lower(name)) == IconFor(name)
  {
    LowerIdempotent(name);
  }
}
