/**
 * The gallery: a fixed list of images, category buttons that filter it, and a
 * lightbox that shows one selected image until a backdrop, Close or Contact Us
 * click clears the selection.
 */
module Gallery {
  import opened Wrappers

  datatype Image = Image(id: nat, src: string, alt: string, category: string)

  /** The category that switches filtering off. */
  const All: string := "All"

  /** An Unsplash photo at the size the gallery requests. */
  function UnsplashUrl(photo: string): string {
    "https://images.unsplash.com/" + photo + "?q=80&w=1000&auto=format&fit=crop"
  }

  /** The eight images, in display order; the tiles are keyed by id, and the ids are 1 to 8 in order. */
  function Images(): (images: seq<Image>)
    ensures |images| == 8
    ensures forall i :: 0 <= i < |images| ==> images[i].id == i + 1
  {
    [ Image(1, UnsplashUrl("photo-1554118811-1e0d58224f24"), "Cozy Interior", "interior"),
      Image(2, UnsplashUrl("photo-1596920566829-d73ad80aa18e"), "Masala Chai Kulhad", "food"),
      Image(3, UnsplashUrl("photo-1509042239860-f550ce710b93"), "Live Counter", "interior"),
      Image(4, UnsplashUrl("photo-1558961363-fa8fdf82db35"), "Fresh Cookies", "food"),
      Image(5, UnsplashUrl("photo-1556742049-0cfed4f7a07d"), "Our Baristas", "team"),
      Image(6, UnsplashUrl("photo-1626136084051-5296f6b92a2a"), "Snack Platter", "food"),
      Image(7, UnsplashUrl("photo-1453614512568-c4024d13c247"), "Student Hangout", "interior"),
      Image(8, UnsplashUrl("photo-1511578314322-379afb476865"), "Campus Event", "events") ]
  }

  /** The category buttons, in order; the first switches filtering off. */
  function Categories(): (cs: seq<string>)
    ensures |cs| == 5 && cs[0] == All
    ensures forall i, j :: 0 <= i < j < |cs| ==> cs[i] != cs[j]
  {
    [All, "interior", "food", "team", "events"]
  }

  /** `sub` is `s` with some elements left out and the rest in their original order. */
  ghost predicate IsSubsequence<T>(sub: seq<T>, s: seq<T>)
    decreases |s|
  {
    if sub == [] then true
    else if s == [] then false
    else (sub[0] == s[0] && IsSubsequence(sub[1..], s[1..])) || IsSubsequence(sub, s[1..])
  }

  /** A subsequence is never longer than the sequence it is taken from. */
  lemma {:induction false} SubsequenceNotLonger<T>(sub: seq<T>, s: seq<T>)
    requires IsSubsequence(sub, s)
    ensures |sub| <= |s|
    decreases |s|
  {
    if sub != [] {
      if sub[0] == s[0] && IsSubsequence(sub[1..], s[1..]) {
        SubsequenceNotLonger(sub[1..], s[1..]);
      } else {
        SubsequenceNotLonger(sub, s[1..]);
      }
    }
  }

  /**
   * Keep the images whose category is `category`: exactly the images of that
   * category, each as often as in `images`, in their original order.
   */
  function FilterByCategory(images: seq<Image>, category: string): (r: seq<Image>)
    ensures forall x :: x in r <==> x in images && x.category == category
    ensures IsSubsequence(r, images)
  {
    if images == [] then []
    else
      var rest := FilterByCategory(images[1..], category);
      assert images == [images[0]] + images[1..];
      if images[0].category == category then [images[0]] + rest else rest
  }

  /** Every sequence is a subsequence of itself. */
  lemma {:induction false} SubsequenceReflexive<T>(s: seq<T>)
    ensures IsSubsequence(s, s)
    decreases |s|
  {
    if s != [] {
      SubsequenceReflexive(s[1..]);
    }
  }

  /** The filter drops no image of the category: each is kept as often as it occurs. */
  lemma {:induction false} FilterKeepsEveryMatch(images: seq<Image>, category: string, x: Image)
    requires x.category == category
    ensures multiset(FilterByCategory(images, category))[x] == multiset(images)[x]
    decreases |images|
  {
    if images != [] {
      FilterKeepsEveryMatch(images[1..], category, x);
      assert images == [images[0]] + images[1..];
    }
  }

  /** `filteredImages`: everything for "All", otherwise the images of the active category. */
  function FilteredImages(images: seq<Image>, activeCategory: string): (r: seq<Image>)
    ensures activeCategory == All ==> r == images
    ensures activeCategory != All ==> forall x :: x in r <==> x in images && x.category == activeCategory
    ensures IsSubsequence(r, images)
  {
    if activeCategory == All then SubsequenceReflexive(images); images
    else FilterByCategory(images, activeCategory)
  }

  /** Filtering never lengthens the list. */
  lemma FilteredNeverLonger(images: seq<Image>, activeCategory: string)
    ensures |FilteredImages(images, activeCategory)| <= |images|
  {
    SubsequenceNotLonger(FilteredImages(images, activeCategory), images);
  }

  /** The categories an image can carry: every button but "All". */
  function ImageCategories(): (cs: seq<string>)
    ensures cs == Categories()[1..] && All !in cs
  {
    ["interior", "food", "team", "events"]
  }

  /** Each of the eight images carries one of the four image categories. */
  lemma ImagesAreCategorised()
    ensures forall x :: x in Images() ==> x.category in ImageCategories()
  {
    var images := Images();
    forall x | x in images ensures x.category in ImageCategories() {
      var i :| 0 <= i < |images| && images[i] == x;
      assert i == 0 || i == 1 || i == 2 || i == 3 || i == 4 || i == 5 || i == 6 || i == 7;
    }
  }

  /**
   * When every image carries one of the four image categories, the four
   * filtered lists together hold every image exactly as often as `images` does.
   */
  lemma CategoriesPartition(images: seq<Image>)
    requires forall x :: x in images ==> x.category in ImageCategories()
    ensures multiset(FilterByCategory(images, "interior")) + multiset(FilterByCategory(images, "food"))
          + multiset(FilterByCategory(images, "team")) + multiset(FilterByCategory(images, "events"))
            == multiset(images)
  {
    var i, f := multiset(FilterByCategory(images, "interior")), multiset(FilterByCategory(images, "food"));
    var t, e := multiset(FilterByCategory(images, "team")), multiset(FilterByCategory(images, "events"));
    forall y: Image ensures (i + f + t + e)[y] == multiset(images)[y] {
      CountSplits(images, y);
    }
  }

  /** One image's occurrences in the four filtered lists add up to its occurrences in `images`. */
  lemma CountSplits(images: seq<Image>, y: Image)
    requires forall x :: x in images ==> x.category in ImageCategories()
    ensures multiset(FilterByCategory(images, "interior"))[y] + multiset(FilterByCategory(images, "food"))[y]
          + multiset(FilterByCategory(images, "team"))[y] + multiset(FilterByCategory(images, "events"))[y]
            == multiset(images)[y]
  {
    var c := y.category;
    if y in images {
      assert c in ImageCategories();
      assert c == "interior" || c == "food" || c == "team" || c == "events";
      FilterKeepsEveryMatch(images, c, y);
    } else {
      assert y !in FilterByCategory(images, "interior") && y !in FilterByCategory(images, "food");
      assert y !in FilterByCategory(images, "team") && y !in FilterByCategory(images, "events");
    }
  }

  /** The lengths of the four filtered lists add up to the length of `images`. */
  lemma PartitionLength(images: seq<Image>)
    requires forall x :: x in images ==> x.category in ImageCategories()
    ensures |FilterByCategory(images, "interior")| + |FilterByCategory(images, "food")|
          + |FilterByCategory(images, "team")| + |FilterByCategory(images, "events")| == |images|
  {
    CategoriesPartition(images);
    var a, b, c, d := FilterByCategory(images, "interior"), FilterByCategory(images, "food"),
                      FilterByCategory(images, "team"), FilterByCategory(images, "events");
    assert |multiset(a) + multiset(b) + multiset(c) + multiset(d)| == |multiset(images)|;
  }

  /** The gallery's own images split into four disjoint category lists that cover all eight. */
  lemma GalleryPartition()
    ensures |FilterByCategory(Images(), "interior")| + |FilterByCategory(Images(), "food")|
          + |FilterByCategory(Images(), "team")| + |FilterByCategory(Images(), "events")| == |Images()|
    ensures forall c, d, x :: c in ImageCategories() && d in ImageCategories() && c != d &&
              x in FilterByCategory(Images(), c)
              ==> x !in FilterByCategory(Images(), d)
  {
    ImagesAreCategorised();
    PartitionLength(Images());
  }

  // ---------------------------------------------------------------------------
  // The lightbox

  /** The clickable elements of the lightbox. */
  datatype Element = Backdrop | ContentPanel | CloseButton | ContactLink

  /** What an element's `onClick` does. */
  datatype Handler = ClearSelection | StopPropagation

  function HandlerOf(e: Element): (h: Handler)
    ensures h == StopPropagation <==> e == ContentPanel
  {
    match e
    case Backdrop => ClearSelection
    case ContentPanel => StopPropagation
    case CloseButton => ClearSelection
    case ContactLink => ClearSelection
  }

  /** The nearest enclosing element with a click handler. */
  function Parent(e: Element): (p: Option<Element>)
    ensures p == None <==> e == Backdrop
    ensures p != None ==> Depth(p.value) < Depth(e)
    ensures e != ContentPanel && p != None ==> p == Some(ContentPanel)
  {
    match e
    case Backdrop => None
    case ContentPanel => Some(Backdrop)
    case CloseButton => Some(ContentPanel)
    case ContactLink => Some(ContentPanel)
  }

  function Depth(e: Element): nat {
    match e
    case Backdrop => 0
    case ContentPanel => 1
    case CloseButton => 2
    case ContactLink => 2
  }

  /**
   * A click on `e` bubbles outwards, running each handler on the way until
   * one stops propagation. The content panel stops it, so only a click on the
   * panel itself keeps the selection.
   */
  function Bubble(selected: Option<Image>, e: Element): (r: Option<Image>)
    ensures r == if e == ContentPanel then selected else None
    decreases Depth(e)
  {
    var after := if HandlerOf(e) == ClearSelection then None else selected;
    if HandlerOf(e) == StopPropagation then after
    else
      match Parent(e)
      case None => after
      case Some(p) => Bubble(after, p)
  }

  /** The component's state, overwritten by its click handlers. */
  class GalleryView {
    var activeCategory: string
    var selectedImage: Option<Image>

    constructor ()
      ensures activeCategory == All && selectedImage == None
      ensures Shown() == Images()
    {
      activeCategory := All;
      selectedImage := None;
    }

    /** The tiles on screen. */
    function Shown(): (shown: seq<Image>)
      reads this
      ensures activeCategory == All ==> shown == Images()
      ensures activeCategory != All ==> forall x :: x in shown <==> x in Images() && x.category == activeCategory
      ensures IsSubsequence(shown, Images())
    {
      FilteredImages(Images(), activeCategory)
    }

    /** A category button. */
    method SelectCategory(category: string)
      modifies this
      ensures activeCategory == category && selectedImage == old(selectedImage)
      ensures Shown() == FilteredImages(Images(), category)
    {
      activeCategory := category;
    }

    /** A tile. */
    method ClickTile(image: Image)
      modifies this
      ensures selectedImage == Some(image) && activeCategory == old(activeCategory)
    {
      selectedImage := Some(image);
    }

    /** A click inside the lightbox, which is on screen only while an image is selected. */
    method ClickLightbox(target: Element)
      modifies this
      ensures activeCategory == old(activeCategory)
      ensures selectedImage == if old(selectedImage).None? then None else Bubble(old(selectedImage), target)
      ensures target == ContentPanel ==> selectedImage == old(selectedImage)
      ensures target != ContentPanel ==> selectedImage == None
    {
      if selectedImage.Some? {
        selectedImage := Bubble(selectedImage, target);
      }
    }
  }

  /**
   * Clicking a category button twice is the same as clicking it once. A method
   * stands in for a two-state lemma here, because it calls the class's methods.
   */
  method SelectCategoryTwice(g: GalleryView, category: string)
    modifies g
    ensures g.activeCategory == category && g.selectedImage == old(g.selectedImage)
  {
    g.SelectCategory(category);
    g.SelectCategory(category);
  }
}
