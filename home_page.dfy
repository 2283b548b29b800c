/**
 * The home page: the hero slider, the event card helpers, the category
 * colour table, the meeting link path, the events cap and the quick links.
 */
module HomePage {
  import opened Wrappers
  import opened Text
  import opened Seqs
  import opened Cyclic

  /** The hero slider: `currentSlide` over a fixed number of slides. */
  class Slider {
    const slideCount: nat
    var currentSlide: int

    /** The current slide exists, or is 0 while there are no slides. */
    ghost predicate Valid()
      reads this
    {
      if slideCount == 0 then currentSlide == 0 else 0 <= currentSlide < slideCount
    }

    /** `useState(0)`. */
    constructor(count: nat)
      ensures slideCount == count && currentSlide == 0
      ensures Valid()
    {
      slideCount := count;
      currentSlide := 0;
    }

    /** `nextSlide`: `(prev + 1) % slides.length`. */
    method NextSlide()
      requires Valid() && slideCount > 0
      modifies this
      ensures currentSlide == Succ(old(currentSlide), slideCount)
      ensures Valid()
    {
      currentSlide := (currentSlide + 1) % slideCount;
    }

    /** `prevSlide`: `(prev - 1 + slides.length) % slides.length`. */
    method PrevSlide()
      requires Valid() && slideCount > 0
      modifies this
      ensures currentSlide == PredMod(old(currentSlide), slideCount)
      ensures Valid()
    {
      currentSlide := (currentSlide - 1 + slideCount) % slideCount;
    }

    /** `goToSlide(index)`, from the dot of slide `index`. */
    method GoToSlide(index: int)
      requires Valid() && 0 <= index < slideCount
      modifies this
      ensures currentSlide == index
      ensures Valid()
    {
      currentSlide := index;
    }
  }

  /** `formatTime`: the `HH:MM` head of a time string, "" when there is none. */
  function FormatTime(timeString: Option<string>): (r: string)
    ensures !Truthy(timeString) ==> r == ""
    ensures Truthy(timeString) ==> r <= timeString.value
    ensures |r| <= 5
    ensures Truthy(timeString) && |timeString.value| >= 5 ==> |r| == 5
    ensures Truthy(timeString) && |timeString.value| < 5 ==> r == timeString.value
  {
    if !Truthy(timeString) then ""
    else
      var t := timeString.value;
      t[..if |t| < 5 then |t| else 5]
  }

  /** Formatting a formatted time changes nothing. */
  lemma FormatTimeIdempotent(timeString: Option<string>)
    ensures FormatTime(Some(FormatTime(timeString))) == FormatTime(timeString)
  {
  }

  const EventTextLimit: nat := 120

  /** `truncateText` with its default limit of 120 characters. */
  function TruncateEventText(text: Option<string>): (r: string)
    ensures !Truthy(text) ==> r == ""
    ensures Truthy(text) && |text.value| <= EventTextLimit ==> r == text.value
    ensures Truthy(text) && |text.value| > EventTextLimit ==> r == text.value[..EventTextLimit] + "..."
    ensures |r| <= EventTextLimit + 3
  {
    var r := TruncateText(text, EventTextLimit);
    assert Truthy(text) && |text.value| > EventTextLimit ==> r == r[..EventTextLimit] + r[EventTextLimit..];
    r
  }

  /** Shortening an event text twice gives the same as once. */
  lemma TruncateEventTextIdempotent(text: Option<string>)
    ensures TruncateEventText(Some(TruncateEventText(text))) == TruncateEventText(text)
  {
    TruncateIdempotent(text, EventTextLimit);
  }

  const CategoryColors: map<string, string> := map[
    "community" := "#28a745",
    "environment" := "#17a2b8",
    "seasonal" := "#fd7e14",
    "sports" := "#007bff",
    "family" := "#6f42c1",
    "charity" := "#e83e8c",
    "planning" := "#6c757d"]

  const DefaultCategoryColor: string := "#6c757d"

  /** `getCategoryColor`: the table entry for the lower-cased category, else the grey default. */
  function CategoryColor(category: Option<string>): (r: string)
    ensures category.Some? && Lower(category.value) in CategoryColors ==> r == CategoryColors[Lower(category.value)]
    ensures category.None? || Lower(category.value) !in CategoryColors ==> r == DefaultCategoryColor
    ensures r in CategoryColors.Values
  {
    assert CategoryColors["planning"] == DefaultCategoryColor;
    if category.Some? && Lower(category.value) in CategoryColors then CategoryColors[Lower(category.value)]
    else DefaultCategoryColor
  }

  /** The colour does not depend on the case of the category name. */
  lemma CategoryColorIgnoresCase(category: string)
    ensures CategoryColor(Some(Lower(category))) == CategoryColor(Some(category))
  {
    LowerIdempotent(category);
  }

  /** Each run of whitespace becomes a single '-': `replace(/\s+/g, '-')`. */
  function DashRuns(s: string): (r: string)
    ensures |r| <= |s|
    ensures forall i :: 0 <= i < |r| ==> !IsSpace(r[i])
    ensures forall i :: 0 <= i < |r| ==> r[i] == '-' || r[i] in s
    decreases |s|
  {
    if s == [] then ""
    else if IsSpace(s[0]) then
      var rest := TrimStart(s);
      TrimStartShape(s);
      var tail := DashRuns(rest);
      assert forall c :: c in rest ==> c in s;
      "-" + tail
    else
      var tail := DashRuns(s[1..]);
      assert forall c :: c in s[1..] ==> c in s;
      [s[0]] + tail
  }

  /** Text without whitespace passes through unchanged. */
  lemma {:induction false} DashRunsNoSpace(s: string)
    requires forall i :: 0 <= i < |s| ==> !IsSpace(s[i])
    ensures DashRuns(s) == s
    decreases |s|
  {
    if s != [] {
      DashRunsNoSpace(s[1..]);
    }
  }

  /** Text that does not split a whitespace run between its two halves is rewritten half by half. */
  lemma {:induction false} DashRunsConcat(a: string, b: string)
    requires a == [] || b == [] || !IsSpace(a[|a| - 1]) || !IsSpace(b[0])
    ensures DashRuns(a + b) == DashRuns(a) + DashRuns(b)
    decreases |a|
  {
    if a == [] {
      assert a + b == b;
    } else if !IsSpace(a[0]) {
      assert (a + b)[0] == a[0];
      assert (a + b)[1..] == a[1..] + b;
      DashRunsConcat(a[1..], b);
      ConcatAssoc([a[0]], DashRuns(a[1..]), DashRuns(b));
    } else {
      assert (a + b)[0] == a[0];
      TrimStartAppend(a, b);
      TrimStartShape(a);
      var t := TrimStart(a);
      if AllSpace(a) {
        TrimStartAppend(a, []);
        assert a + [] == a;
        assert t == [];
        assert TrimStart(b) == b;
      } else {
        assert t != [] && t[|t| - 1] == a[|a| - 1];
        DashRunsConcat(t, b);
        ConcatAssoc("-", DashRuns(t), DashRuns(b));
      }
    }
  }

  /** A whitespace run between two words becomes exactly one '-'. */
  lemma DashRunsAtSpaceRun(a: string, w: string, b: string)
    requires w != [] && AllSpace(w)
    requires a == [] || !IsSpace(a[|a| - 1])
    requires b == [] || !IsSpace(b[0])
    ensures DashRuns(a + w + b) == DashRuns(a) + "-" + DashRuns(b)
  {
    ConcatAssoc(a, w, b);
    DashRunsConcat(a, w + b);
    assert (w + b)[0] == w[0];
    TrimStartAppend(w, b);
    assert TrimStart(b) == b;
    assert DashRuns(w + b) == "-" + DashRuns(b);
    ConcatAssoc(DashRuns(a), "-", DashRuns(b));
  }

  const MeetingsPath: string := "/ktc-meetings/"

  /** The meeting link: the meeting type lower-cased, whitespace runs turned into '-'. */
  function MeetingLink(meetingType: string): (r: string)
    ensures r == MeetingsPath + DashRuns(Lower(meetingType))
    ensures MeetingsPath <= r
    ensures forall i :: |MeetingsPath| <= i < |r| ==> !IsSpace(r[i]) && !('A' <= r[i] <= 'Z')
  {
    var slug := DashRuns(Lower(meetingType));
    assert forall c :: c in Lower(meetingType) ==> !('A' <= c <= 'Z');
    MeetingsPath + slug
  }

  /** A type that is already a lower-case, space-free slug is used as it is. */
  lemma MeetingLinkOfSlug(meetingType: string)
    requires forall i :: 0 <= i < |meetingType| ==> !IsSpace(meetingType[i]) && !('A' <= meetingType[i] <= 'Z')
    ensures MeetingLink(meetingType) == MeetingsPath + meetingType
  {
    assert Lower(meetingType) == meetingType;
    DashRunsNoSpace(meetingType);
  }

  const ShownEventLimit: nat := 6

  /** `events.slice(0, 6)`: the first six events, or all when there are fewer. */
  function ShownEvents<E>(events: seq<E>): (r: seq<E>)
    ensures r <= events && |r| <= ShownEventLimit
    ensures |events| <= ShownEventLimit ==> r == events
    ensures |events| > ShownEventLimit ==> |r| == ShownEventLimit
  {
    Take(events, ShownEventLimit)
  }

  /** A quick link opens in a new tab exactly when its URL starts with "http". */
  function IsExternal(url: string): (r: bool)
    ensures r <==> |url| >= 4 && url[..4] == "http"
  {
    StartsWith(url, "http")
  }

  datatype LinkAttrs = LinkAttrs(target: string, rel: string, text: string)

  /** The anchor attributes of a quick link. */
  function QuickLinkAttrs(url: string, buttonText: Option<string>): (r: LinkAttrs)
    ensures r.target == "_blank" <==> IsExternal(url)
    ensures r.target == "_self" <==> !IsExternal(url)
    ensures r.rel != "" <==> IsExternal(url)
    ensures IsExternal(url) ==> r.rel == "noopener noreferrer"
    ensures Truthy(buttonText) ==> r.text == buttonText.value
    ensures !Truthy(buttonText) ==> r.text == "Learn More"
  {
    LinkAttrs(
      if IsExternal(url) then "_blank" else "_self",
      if IsExternal(url) then "noopener noreferrer" else "",
      if Truthy(buttonText) then buttonText.value else "Learn More")
  }
}
