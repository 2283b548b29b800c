/**
 * The content detail page: which route parameter names the page, the
 * rewriting of upload URLs into their images/ or downloads/ folders, and
 * the image gallery's modal state.
 */
module ContentDetail {
  import opened Wrappers
  import opened Text
  import opened Cyclic

  /** The route parameters the page may be reached by; absent ones are `None`. */
  datatype RouteParams = RouteParams(slug: Option<string>, page: Option<string>, id: Option<string>, star: Option<string>)

  /** JavaScript `a || b` on strings: `a` when it is truthy, `b` otherwise. */
  function Or(a: Option<string>, b: Option<string>): (r: Option<string>)
    ensures Truthy(a) ==> r == a
    ensures !Truthy(a) ==> r == b
  {
    if Truthy(a) then a else b
  }

  /** `params.slug || params.page || params.id || params['*']`. */
  function PageSlug(params: RouteParams): Option<string> {
    Or(params.slug, Or(params.page, Or(params.id, params.star)))
  }

  /** What the page does once it knows its identifier. */
  datatype PageRequest = Fetch(slug: string) | MissingIdentifier

  /** Fetch the page named by the slug, or report that the URL names no page. */
  function RequestFor(params: RouteParams): (r: PageRequest)
    ensures r.MissingIdentifier? <==>
      !Truthy(params.slug) && !Truthy(params.page) && !Truthy(params.id) && !Truthy(params.star)
    ensures r.Fetch? ==> r.slug != ""
  {
    var s := PageSlug(params);
    if Truthy(s) then Fetch(s.value) else MissingIdentifier
  }

  /** The slug is the first truthy parameter in the order slug, page, id, `*`. */
  lemma SlugIsFirstTruthy(params: RouteParams)
    ensures Truthy(params.slug) ==> RequestFor(params) == Fetch(params.slug.value)
    ensures !Truthy(params.slug) && Truthy(params.page) ==> RequestFor(params) == Fetch(params.page.value)
    ensures !Truthy(params.slug) && !Truthy(params.page) && Truthy(params.id) ==>
      RequestFor(params) == Fetch(params.id.value)
    ensures !Truthy(params.slug) && !Truthy(params.page) && !Truthy(params.id) && Truthy(params.star) ==>
      RequestFor(params) == Fetch(params.star.value)
  {
  }

  const UploadsFolder: string := "/uploads/content/"
  const ImagesFolder: string := UploadsFolder + "images/"
  const DownloadsFolder: string := UploadsFolder + "downloads/"

  /**
   * The shared shape of `getCorrectImageUrl` and `getCorrectDownloadUrl`:
   * a missing URL gives "", a URL already pointing into `target` is kept,
   * any other URL has its first `/uploads/content/` redirected to `target`.
   */
  function CorrectUploadUrl(url: Option<string>, target: string): (r: string)
    requires UploadsFolder <= target
    ensures !Truthy(url) ==> r == ""
    ensures Truthy(url) && Contains(url.value, target) ==> r == url.value
    ensures Truthy(url) && !Contains(url.value, UploadsFolder) ==> r == url.value
    ensures Truthy(url) && !Contains(url.value, target) && Contains(url.value, UploadsFolder) ==>
      var i := IndexOf(url.value, UploadsFolder).value;
      && i + |UploadsFolder| <= |url.value|
      && |r| == |url.value| - |UploadsFolder| + |target|
      && r[..i] == url.value[..i]
      && OccursAt(r, target, i)
      && r[i + |target|..] == url.value[i + |UploadsFolder|..]
  {
    if !Truthy(url) then ""
    else if Contains(url.value, target) then url.value
    else ReplaceFirst(url.value, UploadsFolder, target)
  }

  /** `getCorrectImageUrl`. */
  function CorrectImageUrl(imageUrl: Option<string>): string {
    CorrectUploadUrl(imageUrl, ImagesFolder)
  }

  /** `getCorrectDownloadUrl`. */
  function CorrectDownloadUrl(downloadUrl: Option<string>): string {
    CorrectUploadUrl(downloadUrl, DownloadsFolder)
  }

  lemma ContainsLonger(s: string, a: string, b: string)
    requires Contains(s, a + b)
    ensures Contains(s, a)
  {
    var i := IndexOf(s, a + b).value;
    assert s[i..i + |a|] == (a + b)[..|a|];
    ContainsAt(s, a, i);
  }

  /** Any URL under the uploads folder ends up pointing into `target`. */
  lemma CorrectedUrlPointsIntoTarget(url: Option<string>, target: string)
    requires UploadsFolder <= target
    requires Truthy(url) && Contains(url.value, UploadsFolder)
    ensures Contains(CorrectUploadUrl(url, target), target)
  {
    if !Contains(url.value, target) {
      ContainsAt(CorrectUploadUrl(url, target), target, IndexOf(url.value, UploadsFolder).value);
    }
  }

  /** Correcting a corrected URL changes nothing. */
  lemma CorrectUploadUrlIdempotent(url: Option<string>, target: string)
    requires UploadsFolder <= target
    ensures CorrectUploadUrl(Some(CorrectUploadUrl(url, target)), target) == CorrectUploadUrl(url, target)
  {
    if Truthy(url) && !Contains(url.value, target) {
      if Contains(url.value, UploadsFolder) {
        CorrectedUrlPointsIntoTarget(url, target);
      } else {
        assert target == UploadsFolder + target[|UploadsFolder|..];
      }
    }
  }

  /** Both page helpers are idempotent. */
  lemma CorrectImageAndDownloadUrlIdempotent(url: Option<string>)
    ensures CorrectImageUrl(Some(CorrectImageUrl(url))) == CorrectImageUrl(url)
    ensures CorrectDownloadUrl(Some(CorrectDownloadUrl(url))) == CorrectDownloadUrl(url)
  {
    CorrectUploadUrlIdempotent(url, ImagesFolder);
    CorrectUploadUrlIdempotent(url, DownloadsFolder);
  }

  /** The keys the page listens to while the gallery is open. */
  datatype Key = Escape | ArrowRight | ArrowLeft | Other

  /**
   * The gallery modal: `galleryModal = { isOpen, currentIndex }` over the
   * page's `gallery_images` (absent when the page has none).
   */
  class Gallery {
    const galleryImages: Option<seq<string>>
    var isOpen: bool
    var currentIndex: int

    /** Open only over an image that exists; a closed gallery rests at index 0. */
    ghost predicate Valid()
      reads this
    {
      && (isOpen ==> galleryImages.Some? && 0 <= currentIndex < |galleryImages.value|)
      && (!isOpen ==> currentIndex == 0)
    }

    function Count(): nat
      reads this
    {
      if galleryImages.Some? then |galleryImages.value| else 0
    }

    /** The initial state `{ isOpen: false, currentIndex: 0 }`. */
    constructor(images: Option<seq<string>>)
      ensures galleryImages == images && !isOpen && currentIndex == 0
      ensures Valid()
    {
      galleryImages := images;
      isOpen := false;
      currentIndex := 0;
    }

    /** `openGallery(index)`, called from the thumbnail at `index`. */
    method Open(index: int)
      requires Valid() && 0 <= index < Count()
      modifies this
      ensures isOpen && currentIndex == index
      ensures Valid()
    {
      isOpen := true;
      currentIndex := index;
    }

    /** `closeGallery`. */
    method Close()
      modifies this
      ensures !isOpen && currentIndex == 0
      ensures Valid()
    {
      isOpen := false;
      currentIndex := 0;
    }

    /** `nextImage`: one image on, the last wrapping to the first. */
    method NextImage()
      requires Valid() && isOpen
      modifies this
      ensures isOpen && currentIndex == Succ(old(currentIndex), Count())
      ensures Valid()
    {
      if galleryImages.Some? {
        currentIndex := (currentIndex + 1) % |galleryImages.value|;
      }
    }

    /** `prevImage`: one image back, the first wrapping to the last. */
    method PrevImage()
      requires Valid() && isOpen
      modifies this
      ensures isOpen && currentIndex == PredWrap(old(currentIndex), Count())
      ensures Valid()
    {
      if galleryImages.Some? {
        currentIndex := if currentIndex == 0 then |galleryImages.value| - 1 else currentIndex - 1;
      }
    }

    /** The dot under the open image for `index`. */
    method Select(index: int)
      requires Valid() && isOpen && 0 <= index < Count()
      modifies this
      ensures isOpen && currentIndex == index
      ensures Valid()
    {
      currentIndex := index;
    }

    /** `handleKeyPress`: keys act only while the gallery is open. */
    method HandleKey(key: Key)
      requires Valid()
      modifies this
      ensures Valid()
      ensures !old(isOpen) ==> !isOpen && currentIndex == old(currentIndex)
      ensures old(isOpen) && key == Escape ==> !isOpen && currentIndex == 0
      ensures old(isOpen) && key == ArrowRight ==> isOpen && currentIndex == Succ(old(currentIndex), Count())
      ensures old(isOpen) && key == ArrowLeft ==> isOpen && currentIndex == PredWrap(old(currentIndex), Count())
      ensures old(isOpen) && key == Other ==> isOpen && currentIndex == old(currentIndex)
    {
      if isOpen {
        if key == Escape {
          Close();
        } else if key == ArrowRight {
          NextImage();
        } else if key == ArrowLeft {
          PrevImage();
        }
      }
    }
  }
}
