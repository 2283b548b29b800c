# Town council website: page logic and CMS rewrite, modelled in Dafny

This project models the logic at the core of a town council website. The
website is a React front end backed by a Flask CMS.

The model covers two kinds of code:

- **The front-end pages.** These are the pure helpers and the small state
  machines of seven pages:
  - the meeting-type page: sort meetings newest first, then split them into
    the next meeting, the historic meetings and the recent ones;
  - the events calendar: months that have events, navigation between months,
    category filters and the category fallback;
  - the content detail page: URL parameters, upload URL correction and the
    image gallery;
  - the content hub: hidden categories, card colours, search, and
    per-category and per-subcategory pages;
  - the councillors directory: ward-tag filters, descriptions and badges;
  - the home page: the slider, time and text formatting, category colours,
    meeting links and quick links;
  - the meetings index: the allowed meeting types and their icons.
- **The CMS rewrite script.** `cms/modify_cms.py` turns a standalone Flask
  routes file into a module:
  - it drops the Flask imports among the first 20 lines;
  - it puts a fixed import header in front;
  - it drops `app.run(` lines;
  - it drops every `if __name__ == '__main__':` block up to the next
    `@app.route`.

The code is laid out one module per source file, plus four shared modules:

| module | models |
|---|---|
| `Wrappers` | an `Option` type |
| `Text` | string helpers: JavaScript truthiness, `includes`, first-occurrence `replace`, ASCII `toLowerCase`, `trim`, truncation, the singular-or-plural count label |
| `Seqs` | a generic `filter` with subsequence and multiset facts, the "toggle membership" update, `slice(0, n)`, and a stable in-place insertion sort on an array |
| `Cyclic` | the wrap-around index steps used by the slider and the gallery |

The page modules are `MeetingSchedule`, `EventCalendar`, `ContentDetail`,
`ContentHub`, `CouncillorDirectory`, `HomePage` and `MeetingTypes`. The CMS
script is modelled in `CmsRewrite`.

The model represents some inputs differently from the source:

- **State held in objects.** The gallery modal (open flag and current image)
  and the home-page slider (current slide) change in place, so they are
  classes with `modifies` clauses.
- **Loops.** The meeting partition, the category de-duplication, the months
  list and the CMS line loop are methods with loops.
  - The partition, the de-duplication and the CMS loop are proved equal to a
    specification function: `FirstUpcoming`, `Past` and `Take`, `FirstPerId` and
    `Rewrite`. Further lemmas state the properties of those functions.
  - The months list is specified by its properties instead: strictly
    increasing first-of-month dates, one for each month that has an event.
- **Dates.**
  - Meeting dates are whole day numbers.
  - Event dates are `Instant(year, month, offset)` values. They are ordered
    first by year, then by month, then by position within the month. The
    first of a month has offset 0.
  - "Today" is always a parameter.
- **Missing strings.** A JavaScript string that may be missing is an
  `Option<string>`. It counts as truthy when it is present and non-empty.

## Model

| member | source | states |
|---|---|---|
| MeetingSchedule.MeetingList | frontend/src/pages/MeetingTypePage.jsx:31-42 | a missing or non-array `meetings` field yields the empty list; an array is used as it is |
| Seqs.SortByKey | frontend/src/pages/MeetingTypePage.jsx:45-51 | the in-place sort leaves the array sorted by the key and a permutation of its old contents |
| MeetingSchedule.SortedIsNewestFirst | frontend/src/pages/MeetingTypePage.jsx:50 | sorting by the negated day (comparator `dateB - dateA`) gives newest-first order |
| MeetingSchedule.FirstUpcoming | frontend/src/pages/MeetingTypePage.jsx:64-65 | the chosen `next` meeting is one of the meetings and is dated today or later |
| MeetingSchedule.FirstUpcomingNone | frontend/src/pages/MeetingTypePage.jsx:56-72 | there is no `next` meeting exactly when every meeting is before today |
| MeetingSchedule.PastMembers | frontend/src/pages/MeetingTypePage.jsx:66-67 | `historic` holds exactly the meetings dated before today, as a subsequence of the sorted list |
| MeetingSchedule.Partition | frontend/src/pages/MeetingTypePage.jsx:56-72 | the loop sets `next` to the first upcoming meeting, `historic` to the past meetings in order, and `recent` to the first six of them |
| MeetingSchedule.FetchMeetingData | frontend/src/pages/MeetingTypePage.jsx:31-76 | `next` exists exactly when some meeting is upcoming, and it is the latest upcoming one; `historic` is a newest-first permutation of the past meetings; `recent` is its first six |
| MeetingSchedule.FirstUpcomingIsLatest | frontend/src/pages/MeetingTypePage.jsx:60-65 | in newest-first order, no upcoming meeting is later than `next` |
| MeetingSchedule.NextIsNotSoonest | frontend/src/pages/MeetingTypePage.jsx:60-65 | with meetings on days 20 and 10 and today day 0, `next` is the day-20 meeting although day 10 is sooner |
| MeetingSchedule.SoonestUpcoming | frontend/src/pages/MeetingTypePage.jsx:65 | the intended next meeting: it is upcoming, it is no later than any other upcoming meeting, and it is absent exactly when all meetings are past |
| MeetingSchedule.NextIsSoonestWhenUnique | frontend/src/pages/MeetingTypePage.jsx:60-65 | when at most one meeting is upcoming, the loop's `next` equals the soonest upcoming meeting |
| MeetingSchedule.SubseqNewestFirst | frontend/src/pages/MeetingTypePage.jsx:66-69 | any list picked in order out of a newest-first list is itself newest first (so `historic` and `recent` are) |
| MeetingSchedule.UpcomingNotHistoric | frontend/src/pages/MeetingTypePage.jsx:64-67 | an upcoming meeting is never in the historic list |
| MeetingSchedule.ButtonText | frontend/src/pages/MeetingTypePage.jsx:107-109 | "DOWNLOAD" exactly when the file URL is truthy, otherwise "AVAILABLE SOON" |
| MeetingSchedule.SummaryButtonText | frontend/src/pages/MeetingTypePage.jsx:111-113 | "OPEN SUMMARY PAGE" exactly when the summary URL is truthy, otherwise "AVAILABLE SOON" |
| MeetingSchedule.CalendarEnd | frontend/src/pages/MeetingTypePage.jsx:139-140 | the calendar entry ends exactly two hours (in milliseconds) after it starts |
| MeetingSchedule.CalendarEndOnClock | frontend/src/pages/MeetingTypePage.jsx:138-140 | the end is the same minute two clock hours after the start |
| EventCalendar.MonthNumberOrder | frontend/src/pages/EventsPage.jsx:145-150 | comparing months by `year*12+month` is the same as comparing year first, then month |
| EventCalendar.IsEventInMonth | frontend/src/pages/EventsPage.jsx:120-124 | an event is in a month exactly when its year and month match that month's |
| EventCalendar.InMonthIffWithinBounds | frontend/src/pages/EventsPage.jsx:120-124 | an event is in a month exactly when it lies between the first of that month and the first of the next month |
| EventCalendar.IsEventPast | frontend/src/pages/EventsPage.jsx:126-131 | an event is past exactly when it is strictly before the start of today |
| EventCalendar.AllMonthsWithEvents | frontend/src/pages/EventsPage.jsx:137-151 | the result lists first-of-month dates strictly increasing, with one entry for each month that has an event and no other entries |
| EventCalendar.FindMonthIndex | frontend/src/pages/EventsPage.jsx:158-160 | `findIndex` returns the first listed month with the start month's year and month, or -1 when there is none |
| EventCalendar.FindNextMonthWithEvents | frontend/src/pages/EventsPage.jsx:153-181 | with no months the start month is returned; otherwise the result is the start month or one of the listed months |
| EventCalendar.ListedMonthOrder | frontend/src/pages/EventsPage.jsx:168 | a first-of-month date is later than a date exactly when its month number is larger; it is earlier exactly when its month is earlier, or it is the same month and the date is past its first |
| EventCalendar.MonthListSorted | frontend/src/pages/EventsPage.jsx:150 | the months list is sorted by month number |
| EventCalendar.ForwardIsEarliestLaterMonth | frontend/src/pages/EventsPage.jsx:162-170 | "next" gives the earliest listed month after the start month, or the start month itself when there is none |
| EventCalendar.BackwardIsLatestEarlierMonth | frontend/src/pages/EventsPage.jsx:171-180 | "previous" gives the latest listed month before the start month, or the start month itself when there is none |
| EventCalendar.ToggleCategory | frontend/src/pages/EventsPage.jsx:213-219 | the toggled id's membership flips and every other id keeps its membership; an unselected id is appended once at the end; a selected id has every occurrence removed, the rest kept in order |
| EventCalendar.ToggleCategoryTwice | frontend/src/pages/EventsPage.jsx:213-219 | selecting and then deselecting a category restores the selection |
| EventCalendar.FilteredEvents | frontend/src/pages/EventsPage.jsx:226-232 | an event is shown exactly when it is in the display month and either no category is selected or it has a selected category; each shown event appears as often as in the input, in the events' order |
| EventCalendar.ClearedFiltersShowWholeMonth | frontend/src/pages/EventsPage.jsx:221-223 | with the selection cleared, the filter shows every event of the display month |
| EventCalendar.EarliestUpcoming | frontend/src/pages/EventsPage.jsx:38-40 | the first of the sorted future events is an event on or after today, and no future event is earlier; it is absent exactly when every event is past |
| EventCalendar.InitialDisplayMonth | frontend/src/pages/EventsPage.jsx:32-47 | once events load, the display month becomes the earliest event on or after today; if there is none it is left unchanged |
| EventCalendar.GoToCurrentMonth | frontend/src/pages/EventsPage.jsx:194-210 | when some event is on or after today, jumps to the date of such an event, and no such event is earlier; otherwise jumps to today; never to a date before today |
| EventCalendar.InitialMonthEventNotPast | frontend/src/pages/EventsPage.jsx:32-47 | the date the display month jumps to is never shown as past |
| EventCalendar.HasCategoryId | frontend/src/pages/EventsPage.jsx:79 | `find(c => c.id === cat.id)` succeeds exactly when some collected category has that id |
| EventCalendar.NewPerIdIds | frontend/src/pages/EventsPage.jsx:78-82 | keeping the first category of each new id leaves exactly the ids of everything looked at |
| EventCalendar.NewPerIdDistinct | frontend/src/pages/EventsPage.jsx:78-82 | keeping the first category of each new id never repeats an id |
| EventCalendar.NewPerIdAppend | frontend/src/pages/EventsPage.jsx:75-84 | first-per-id over two lists in a row is first-per-id over the first, then over the second past the first's ids |
| EventCalendar.AddNewCategories | frontend/src/pages/EventsPage.jsx:78-82 | the result is the old list followed by each category whose id is neither in the old list nor earlier in the event's list; ids stay distinct; afterwards the ids present are the old ones plus the event's |
| EventCalendar.DedupeCategories | frontend/src/pages/EventsPage.jsx:75-84 | the result is, for each id, the first category with that id among all the events' categories, in order of first appearance |
| EventCalendar.FallbackCategoriesAsWritten | frontend/src/pages/EventsPage.jsx:26-29 | the fallback runs from the mount effect over the initial empty events, so it always yields no categories, whatever events later load |
| EventCalendar.FallbackCategories | frontend/src/pages/EventsPage.jsx:74-85 | the intended fallback over the loaded events: the first category of each id, in order of first appearance |
| Text.CountLabel | frontend/src/pages/EventsPage.jsx:363 | the noun with an "s" unless the count is exactly one; the same label is used at `CouncillorsPage.jsx:177` and `MeetingsPage.jsx:183` |
| ContentDetail.Or | frontend/src/pages/ContentDetailPage.jsx:10 | JavaScript `a \|\| b` on strings: `a` when truthy, else `b` |
| ContentDetail.RequestFor | frontend/src/pages/ContentDetailPage.jsx:17-24 | the "no page identifier" error arises exactly when slug, page, id and `*` are all falsy; otherwise a non-empty slug is fetched |
| ContentDetail.SlugIsFirstTruthy | frontend/src/pages/ContentDetailPage.jsx:10 | the slug fetched is the first truthy one of slug, page, id and `*` |
| ContentDetail.CorrectUploadUrl | frontend/src/pages/ContentDetailPage.jsx:62-76 | a falsy URL gives ""; a URL already holding the target folder, or lacking `/uploads/content/`, is kept; otherwise the first `/uploads/content/` becomes the target folder |
| ContentDetail.CorrectedUrlPointsIntoTarget | frontend/src/pages/ContentDetailPage.jsx:62-76 | any URL that mentions `/uploads/content/` ends up containing the target folder |
| ContentDetail.CorrectUploadUrlIdempotent | frontend/src/pages/ContentDetailPage.jsx:62-76 | correcting an already corrected URL changes nothing |
| ContentDetail.CorrectImageAndDownloadUrlIdempotent | frontend/src/pages/ContentDetailPage.jsx:62-76 | the image and download corrections are idempotent |
| ContentDetail.Gallery.constructor | frontend/src/pages/ContentDetailPage.jsx:15 | the gallery starts closed at image 0 |
| ContentDetail.Gallery.Open | frontend/src/pages/ContentDetailPage.jsx:89-91 | opening at an index shows that image |
| ContentDetail.Gallery.Close | frontend/src/pages/ContentDetailPage.jsx:93-95 | closing resets to closed at image 0 |
| ContentDetail.Gallery.NextImage | frontend/src/pages/ContentDetailPage.jsx:97-104 | advances to the next image, wrapping from the last to the first; the index stays in range |
| ContentDetail.Gallery.PrevImage | frontend/src/pages/ContentDetailPage.jsx:106-113 | steps back, wrapping from the first to the last; the index stays in range |
| ContentDetail.Gallery.Select | frontend/src/pages/ContentDetailPage.jsx:584 | clicking a thumbnail dot shows that image and keeps the gallery open |
| ContentDetail.Gallery.HandleKey | frontend/src/pages/ContentDetailPage.jsx:115-121 | keys are ignored while closed; Escape closes; the right arrow goes to the next image, the left arrow to the previous one; other keys change nothing |
| Cyclic.Succ | frontend/src/pages/HomePage.jsx:168-170 | `(i + 1) % n` stays in range, goes up by one, and wraps from the last index to 0 |
| Cyclic.PredWrapIsPredMod | frontend/src/pages/ContentDetailPage.jsx:106-113 | the gallery's "0 wraps to last" step equals the slider's `(i - 1 + n) % n` |
| Cyclic.PredAfterSucc | frontend/src/pages/HomePage.jsx:168-174 | going back after going forward returns to the same index |
| Cyclic.SuccAfterPred | frontend/src/pages/ContentDetailPage.jsx:97-113 | going forward after going back returns to the same index |
| ContentHub.CardColor | frontend/src/pages/ContentHubPage.jsx:93 | the category's own truthy colour, otherwise the palette colour at the index modulo 10 |
| ContentHub.VisibleCategories | frontend/src/pages/ContentHubPage.jsx:89-96 | one decorated card per category that survives the hidden-name filter, in order, each coloured by its position |
| ContentHub.VisibleCategoriesAreTheShownOnes | frontend/src/pages/ContentHubPage.jsx:24 | no visible card is named "News" or "Meetings"; every other category appears as a card |
| ContentHub.PaletteColorsDiffer | frontend/src/pages/ContentHubPage.jsx:18-21 | two uncoloured cards fewer than ten positions apart get different palette colours |
| ContentHub.VisibleColorsTruthy | frontend/src/pages/ContentHubPage.jsx:93 | every visible card has a non-empty colour |
| ContentHub.Search | frontend/src/pages/ContentHubPage.jsx:38-66 | a blank term keeps everything; otherwise a category or page is kept exactly when one of its fields contains the lower-cased term, as often as it occurs; order is kept |
| ContentHub.SearchIgnoresTermCase | frontend/src/pages/ContentHubPage.jsx:44 | searching for the lower-cased term gives the same results |
| Text.TrimEmptyIffAllSpace | frontend/src/pages/ContentHubPage.jsx:40 | `trim() === ''` holds exactly when the string is all whitespace |
| ContentHub.CategoryPages | frontend/src/pages/ContentHubPage.jsx:140-148 | exactly the filtered pages whose category has the given id, each as often as it occurs, in order |
| ContentHub.SubcategoryPages | frontend/src/pages/ContentHubPage.jsx:150-153 | exactly the filtered pages whose subcategory has the given id, each as often as it occurs, in order |
| ContentHub.CategoryPagesPartition | frontend/src/pages/ContentHubPage.jsx:140-148 | a page with a category is listed under that category and under no other |
| ContentHub.AnySubcategoryHasPages | frontend/src/pages/ContentHubPage.jsx:313 | `some` holds exactly when some subcategory has a page |
| ContentHub.SectionVisible | frontend/src/pages/ContentHubPage.jsx:311-318 | a category section is rendered exactly when it has direct pages or a subcategory with pages |
| ContentHub.SectionVisibleImpliesCardContent | frontend/src/pages/ContentHubPage.jsx:228-229 | a category with a rendered section has a card marked as having content |
| ContentHub.ResultCount | frontend/src/pages/ContentHubPage.jsx:217-219 | the "N results" line appears exactly when the term is non-empty, and counts categories plus pages |
| ContentHub.ResultCountBounded | frontend/src/pages/ContentHubPage.jsx:217-219 | the result count never exceeds the number of categories plus pages |
| CouncillorDirectory.ToggleTag | frontend/src/pages/CouncillorsPage.jsx:59-65 | the tag's membership flips, other tags are unchanged, and a new tag is appended once at the end; a selected tag has every occurrence removed, the rest kept in order |
| CouncillorDirectory.ToggleTagKeepsNoDuplicates | frontend/src/pages/CouncillorsPage.jsx:59-65 | toggling keeps a duplicate-free selection duplicate-free |
| CouncillorDirectory.ToggleTagTwice | frontend/src/pages/CouncillorsPage.jsx:59-65 | toggling an unselected tag twice restores the selection, whatever it held |
| CouncillorDirectory.FilteredCouncillors | frontend/src/pages/CouncillorsPage.jsx:72-78 | with no selected tags everyone is shown; otherwise exactly those with a selected tag, each as often as in the input, in order |
| CouncillorDirectory.ClearFiltersShowsEveryone | frontend/src/pages/CouncillorsPage.jsx:67-69 | after clearing the filters the whole list is shown |
| CouncillorDirectory.FilterMonotone | frontend/src/pages/CouncillorsPage.jsx:72-78 | with tags already selected, adding one more tag keeps every shown councillor shown |
| CouncillorDirectory.Description | frontend/src/pages/CouncillorsPage.jsx:92-94 | the intro when truthy, else the bio when truthy, else "" |
| CouncillorDirectory.TruncateCardText | frontend/src/pages/CouncillorsPage.jsx:97-100 | falsy text gives ""; text of at most 150 characters is kept; longer text becomes its first 150 characters plus "..." |
| CouncillorDirectory.CardTextFromDescription | frontend/src/pages/CouncillorsPage.jsx:92-100 | the card text is the description itself when it has at most 150 characters; otherwise it is a 150-character prefix of it followed by "..." |
| CouncillorDirectory.TagBadges | frontend/src/pages/CouncillorsPage.jsx:271-286 | no badges without tags; the first two tags are shown (all of them when there are fewer), with a "+N" badge exactly when there are more than two, N being the number of tags not shown |
| CouncillorDirectory.TagBadgesCountAll | frontend/src/pages/CouncillorsPage.jsx:276-285 | the tags shown plus the "+N" number always equal the number of tags |
| HomePage.Slider.constructor | frontend/src/pages/HomePage.jsx:14 | the slider starts at slide 0 |
| HomePage.Slider.NextSlide | frontend/src/pages/HomePage.jsx:168-170 | the slide advances by one, wrapping to 0, and stays in range |
| HomePage.Slider.PrevSlide | frontend/src/pages/HomePage.jsx:172-174 | the slide goes back by one, wrapping to the last, and stays in range |
| HomePage.Slider.GoToSlide | frontend/src/pages/HomePage.jsx:176-178 | the chosen slide becomes current |
| HomePage.FormatTime | frontend/src/pages/HomePage.jsx:199-202 | falsy gives ""; otherwise the first five characters, or the whole string when it is shorter |
| HomePage.FormatTimeIdempotent | frontend/src/pages/HomePage.jsx:199-202 | formatting a formatted time changes nothing |
| HomePage.TruncateEventText | frontend/src/pages/HomePage.jsx:205-208 | falsy text gives ""; text of at most 120 characters is kept; longer text becomes its first 120 characters plus "..." |
| HomePage.TruncateEventTextIdempotent | frontend/src/pages/HomePage.jsx:205-208 | truncating a truncated event text changes nothing |
| HomePage.CategoryColor | frontend/src/pages/HomePage.jsx:211-222 | the colour listed for the lower-cased category, otherwise grey `#6c757d`; always one of the listed colours |
| HomePage.CategoryColorIgnoresCase | frontend/src/pages/HomePage.jsx:221 | the category's letter case does not change its colour |
| HomePage.DashRuns | frontend/src/pages/HomePage.jsx:455 | `replace(/\s+/g, '-')` leaves no whitespace, never lengthens the string, and only introduces dashes |
| HomePage.DashRunsNoSpace | frontend/src/pages/HomePage.jsx:455 | a string without whitespace is left unchanged |
| HomePage.DashRunsConcat | frontend/src/pages/HomePage.jsx:455 | two strings that do not split a whitespace run between them are rewritten separately and concatenated |
| HomePage.DashRunsAtSpaceRun | frontend/src/pages/HomePage.jsx:455 | a non-empty whitespace run between two non-whitespace ends becomes exactly one `-` |
| HomePage.MeetingLink | frontend/src/pages/HomePage.jsx:455 | the link is `/ktc-meetings/` followed by the lower-cased type with each whitespace run turned into `-`; after the prefix there is no whitespace and no upper-case letter |
| HomePage.MeetingLinkOfSlug | frontend/src/pages/HomePage.jsx:455 | a type name that is already a lower-case slug is appended unchanged |
| HomePage.ShownEvents | frontend/src/pages/HomePage.jsx:333 | the first six events: a prefix of the list, all of it when there are at most six |
| HomePage.IsExternal | frontend/src/pages/HomePage.jsx:498 | a link is external exactly when its URL starts with "http" |
| HomePage.QuickLinkAttrs | frontend/src/pages/HomePage.jsx:498-502 | external links open in a new tab with `rel` set to `noopener noreferrer`; internal ones open in place with no `rel`; the button text falls back to "Learn More" |
| MeetingTypes.AllowedTypes | frontend/src/pages/MeetingsPage.jsx:24-34 | exactly the meeting types whose name is one of the five allowed names, each as often as it occurs, in order |
| MeetingTypes.AllowedTypesIdempotent | frontend/src/pages/MeetingsPage.jsx:32-34 | filtering twice gives the same list as filtering once |
| MeetingTypes.IconFor | frontend/src/pages/MeetingsPage.jsx:49-56 | the planning icon exactly when the name contains "planning" but not "full council"; the people icon exactly when it contains "full council", or "community" without "planning" or "finance" |
| MeetingTypes.IconDefault | frontend/src/pages/MeetingsPage.jsx:55 | a name matching none of the four keywords gets the calendar icon |
| MeetingTypes.IconIgnoresCase | frontend/src/pages/MeetingsPage.jsx:50 | the name's letter case does not change the icon |
| Text.ReplaceFirst | frontend/src/pages/ContentDetailPage.jsx:67 | a string pattern replaces only its first occurrence; without an occurrence the string is unchanged |
| Text.Lower | frontend/src/pages/ContentHubPage.jsx:44 | same length, each ASCII capital turned into its lower-case letter |
| Seqs.Toggle | frontend/src/pages/CouncillorsPage.jsx:59-65 | `prev.includes(x) ? prev.filter(...) : [...prev, x]` flips `x`'s membership only: an absent `x` is appended once; a present `x` loses every occurrence while the rest keep their order and multiplicity |
| CmsRewrite.ClassifyAt | cms/modify_cms.py:16-51 | line k gets the kind of the first test of the loop body that it matches: dropped import, `app.run(`, main guard, route, or other |
| CmsRewrite.IsRouteIgnoresTrailingSpace | cms/modify_cms.py:47 | `line.strip().startswith('@app.route')` holds exactly when the line with only leading whitespace removed starts with it |
| CmsRewrite.ProcessLine | cms/modify_cms.py:17-51 | one pass of the loop body: a dropped import appends nothing; otherwise line 0 first gets the header; `app.run(` and main-guard lines are not copied (a guard starts skipping); a route ends skipping; the line is copied when not skipping |
| CmsRewrite.ModifyLines | cms/modify_cms.py:12-51 | the loop's output equals the rewrite function of the input lines |
| CmsRewrite.RewriteShape | cms/modify_cms.py:24-36 | the output is the 12-line header (unless line 0 is itself a dropped import) followed by the kept lines |
| CmsRewrite.BodyIsSubsequence | cms/modify_cms.py:50-51 | from any position on, the kept lines are a subsequence of the remaining input lines |
| CmsRewrite.BodyOfFileIsSubsequence | cms/modify_cms.py:50-51 | the kept lines are a subsequence of the file's lines |
| CmsRewrite.BodyDropsMarkers | cms/modify_cms.py:38-45 | no kept line contains `app.run(` or the main guard |
| CmsRewrite.BodyStep | cms/modify_cms.py:16-51 | one step per line kind: dropped imports, `app.run(` and main guards are not kept (a guard starts skipping); a route ends skipping and is kept; other lines are kept unless skipping |
| CmsRewrite.SkipDropsUntilRoute | cms/modify_cms.py:43-48 | while skipping, lines up to the next route are all dropped |
| CmsRewrite.CleanLinesKept | cms/modify_cms.py:50-51 | lines with no marker are all kept, unchanged and in order |
| CmsRewrite.CleanFileGetsHeader | cms/modify_cms.py:24-51 | a non-empty file with no marker line becomes the header followed by the file unchanged |
| CmsRewrite.Split | cms/modify_cms.py:12 | `split('\n')` gives at least one piece, and no piece holds a newline |
| CmsRewrite.JoinSplit | cms/modify_cms.py:55 | joining the pieces of a split with newlines restores the text |
| CmsRewrite.SplitJoin | cms/modify_cms.py:12 | splitting a join of newline-free pieces gives the pieces back |
| CmsRewrite.ModifyCmsContent | cms/modify_cms.py:8-55 | the new file content is the newline join of the rewrite of the split old content |

## Left out

- Network requests, loading and error states, and the JSON parsing of API responses are not modelled. The model starts from the decoded data.
- Rendering, CSS classes, ARIA text, modals other than the gallery, scrolling and "back to top" are not modelled.
- The home page's auto-advance timer (`frontend/src/pages/HomePage.jsx:181-186`) is not modelled, because it depends on the clock. Loading slides into the slider is not modelled either: the slide count is fixed when the slider is built.
- Date parsing (`new Date(...)`, the `dd/mm/yyyy` split), time zones and locale date formatting (`toLocaleDateString`) are not modelled. Meeting dates are day numbers. Event dates are year/month/offset instants. "Today" is a parameter.
- Seqs.SortByKey: the JavaScript comparator is modelled as an integer key. The ensures states sortedness and permutation, but not stability.
- Text.Lower and Text.IsSpace: `toLowerCase` and `\s` cover ASCII only. Unicode case mapping and Unicode whitespace are not modelled.
- CmsRewrite.IsRoute: Python's `strip()` is modelled with the same six ASCII whitespace characters. It also strips U+001C to U+001F and Unicode spaces, so a route line indented with those is classified differently here.
- Text.TruncateText: lengths and slices count Dafny characters. JavaScript's `length` and `substring` count UTF-16 code units, so text with characters outside the Basic Multilingual Plane is cut at a different place, and the source can split a surrogate pair.
- CouncillorDirectory.TruncateCardText: the 150-character limit counts Dafny characters, not UTF-16 code units, as for Text.TruncateText.
- CouncillorDirectory.CardTextFromDescription: the 150-character prefix counts Dafny characters, not UTF-16 code units, as for Text.TruncateText.
- HomePage.TruncateEventText: the 120-character limit counts Dafny characters, not UTF-16 code units, as for Text.TruncateText.
- HomePage.FormatTime: the five-character prefix counts Dafny characters, not UTF-16 code units, as for Text.TruncateText.
- HomePage.CategoryColor: keys inherited from JavaScript's object prototype (such as `constructor`) are not modelled. The map holds only the seven listed categories.
- Text.CountLabel: an undefined `meeting_count` on the meetings index is not modelled. The count is always an integer.
- The meeting-type page's own `getIconForMeetingType` and its colour scheme (`frontend/src/pages/MeetingTypePage.jsx:196-210`) are not modelled. The meetings index's icon choice is modelled instead.
- The file reads and writes in `cms/modify_cms.py:8-9` and `54-55`, and its final print, are not modelled. ModifyCmsContent takes and returns the file content.
- The Flask application files (`cms/app.py`, `cms/main.py`, `cms/COMPLETE_routes.py`) and the front-end components are not part of this model.
- ContentDetail.Gallery.NextImage and ContentDetail.Gallery.PrevImage require an open gallery with at least one image. The page only renders these controls when the gallery holds images. An empty array would make the source's `% 0` give `NaN`, and that case is not modelled.
- HomePage.Slider.NextSlide and HomePage.Slider.PrevSlide require at least one slide, for the same reason: `% 0` is `NaN` in JavaScript.

## Findings

| source | as written | input that shows it | evidently intended | confidence | as-written member | corrected member |
|---|---|---|---|---|---|---|
| frontend/src/pages/EventsPage.jsx:26-85 | `fetchCategories` is called from the mount effect (lines 26-29). So its fallback loop (lines 74-85) reads the `events` of the first render, the empty array, even after the events request succeeds. | the categories request fails and the loaded events carry categories; the category list stays empty | the fallback lists the loaded events' categories, one per id | medium, not executed | EventCalendar.FallbackCategoriesAsWritten | EventCalendar.FallbackCategories |
| frontend/src/pages/MeetingTypePage.jsx:60-65 | The list is sorted newest first, and the loop takes the first upcoming meeting it meets as `next`. That is the latest upcoming meeting. | today is day 0 and meetings fall on days 20 and 10; `next` is the day-20 meeting | `next` is the soonest upcoming meeting (the comment calls it the next upcoming meeting) | high, not executed | MeetingSchedule.NextIsNotSoonest | MeetingSchedule.SoonestUpcoming |
