/**
 * The `Gallery` section (the engine's copy and the older `packages/core` copy are the
 * same logic): the category buttons derived from the images, the filtered grid, and the
 * lightbox showing one selected image.
 */
module Gallery {
  import opened Wrappers
  import opened Seqs

  datatype GalleryImage = GalleryImage(src: string, alt: string, category: Option<string>)

  /** The image's category when it is truthy, i.e. present and not empty. */
  predicate HasCategory(img: GalleryImage, c: string) {
    img.category == Some(c) && c != ""
  }

  /** `images.map(img => img.category).filter(Boolean)`: the truthy categories, in image order. */
  function CategoryValues(images: seq<GalleryImage>): (cs: seq<string>)
    ensures |cs| <= |images|
    ensures forall k | 0 <= k < |cs| :: cs[k] != ""
    ensures forall c :: c in cs <==> exists i | 0 <= i < |images| :: HasCategory(images[i], c)
  {
    if images == [] then []
    else
      var rest := CategoryValues(images[1..]);
      assert forall i | 0 <= i < |images| - 1 :: images[1..][i] == images[i + 1];
      match images[0].category
      case Some(c) => if c != "" then [c] + rest else rest
      case None => rest
  }

  /** The filter buttons: `'all'` followed by each truthy category once, in order of first use. */
  function Categories(images: seq<GalleryImage>): (cats: seq<string>)
    ensures |cats| >= 1 && cats[0] == "all"
    ensures NoDuplicates(cats[1..])
    ensures forall c :: c in cats[1..] <==> exists i | 0 <= i < |images| :: HasCategory(images[i], c)
  {
    var tail := Distinct(CategoryValues(images));
    assert forall c | c in tail :: c in CategoryValues(images) by {
      forall c | c in tail ensures c in CategoryValues(images) {
        var k :| 0 <= k < |tail| && tail[k] == c;
      }
    }
    assert forall c | c in CategoryValues(images) :: c in tail by {
      forall c | c in CategoryValues(images) ensures c in tail {
        var k :| 0 <= k < |CategoryValues(images)| && CategoryValues(images)[k] == c;
      }
    }
    assert (["all"] + tail)[1..] == tail;
    ["all"] + tail
  }

  /** The category buttons after `'all'` come in the order in which the categories first
      appear among the images. */
  lemma CategoriesInFirstUseOrder(images: seq<GalleryImage>)
    ensures var values := CategoryValues(images);
      var cats := Categories(images);
      forall i, j | 1 <= i < j < |cats| ::
        cats[i] in values && cats[j] in values &&
        FirstIndex(values, cats[i]) < FirstIndex(values, cats[j])
  {
    var values := CategoryValues(images);
    var cats := Categories(images);
    DistinctFirstOccurrenceOrder(values);
    assert cats[1..] == Distinct(values);
    forall i, j | 1 <= i < j < |cats|
      ensures cats[i] in values && cats[j] in values
      ensures FirstIndex(values, cats[i]) < FirstIndex(values, cats[j])
    {
      assert cats[i] == Distinct(values)[i - 1];
      assert cats[j] == Distinct(values)[j - 1];
    }
  }

  /** `'all'` is prepended outside the `Set`, so an image whose category is literally `"all"`
      yields a second `'all'` button. */
  lemma AllCategoryRepeated(images: seq<GalleryImage>, i: nat)
    requires i < |images| && images[i].category == Some("all")
    ensures var cats := Categories(images);
      exists k | 1 <= k < |cats| :: cats[k] == "all"
  {
    var cats := Categories(images);
    assert HasCategory(images[i], "all");
    assert "all" in cats[1..];
    var k :| 0 <= k < |cats[1..]| && cats[1..][k] == "all";
    assert cats[k + 1] == "all";
  }

  /** `images.filter(img => img.category === filter)` */
  function InCategory(images: seq<GalleryImage>, filter: string): (r: seq<GalleryImage>)
    ensures forall k | 0 <= k < |r| :: r[k].category == Some(filter)
    ensures forall i | 0 <= i < |images| && images[i].category == Some(filter) :: images[i] in r
    ensures IsSubsequence(r, images)
  {
    if images == [] then []
    else
      var rest := InCategory(images[1..], filter);
      assert forall i | 1 <= i < |images| :: images[i] == images[1..][i - 1];
      if images[0].category == Some(filter) then
        assert ([images[0]] + rest)[1..] == rest;
        [images[0]] + rest
      else
        SubsequenceSkip(rest, images[1..], images[0]);
        assert [images[0]] + images[1..] == images;
        rest
  }

  /** The filter walks the list once and keeps each matching image where it stands, as often as
      it occurs: appending an image appends it to the result exactly when it matches. */
  lemma {:induction false} InCategoryAppend(images: seq<GalleryImage>, x: GalleryImage, filter: string)
    ensures InCategory([], filter) == []
    ensures InCategory(images + [x], filter)
      == InCategory(images, filter) + (if x.category == Some(filter) then [x] else [])
    decreases |images|
  {
    if images == [] {
      assert [] + [x] == [x];
      assert [x][1..] == [];
    } else {
      var all := images + [x];
      assert all[0] == images[0];
      assert all[1..] == images[1..] + [x];
      InCategoryAppend(images[1..], x, filter);
    }
  }

  /** The grid's images: all of them under `'all'`, otherwise those of the chosen category. */
  function Shown(images: seq<GalleryImage>, filter: string): (r: seq<GalleryImage>)
    ensures filter == "all" ==> r == images
    ensures filter != "all" ==> forall k | 0 <= k < |r| :: r[k].category == Some(filter)
    ensures forall i | 0 <= i < |images| && images[i].category == Some(filter) :: images[i] in r
    ensures IsSubsequence(r, images)
    ensures forall k | 0 <= k < |r| :: r[k] in images
  {
    if filter == "all" then
      SubsequenceOfItself(images);
      SubsequenceMembers(images, images);
      images
    else
      var r := InCategory(images, filter);
      SubsequenceMembers(r, images);
      r
  }

  /** The grid follows the images one by one, keeping order and repeats: an appended image is
      shown, once more, exactly when the filter is `'all'` or its category. */
  lemma ShownAppend(images: seq<GalleryImage>, x: GalleryImage, filter: string)
    ensures Shown([], filter) == []
    ensures Shown(images + [x], filter)
      == Shown(images, filter) + (if filter == "all" || x.category == Some(filter) then [x] else [])
  {
    InCategoryAppend(images, x, filter);
  }

  lemma {:induction false} SubsequenceMembers<T>(a: seq<T>, b: seq<T>)
    requires IsSubsequence(a, b)
    ensures forall k | 0 <= k < |a| :: a[k] in b
    decreases |b|
  {
    if a != [] {
      if a[0] == b[0] {
        SubsequenceMembers(a[1..], b[1..]);
        assert forall k | 1 <= k < |a| :: a[k] == a[1..][k - 1];
      } else {
        SubsequenceMembers(a, b[1..]);
      }
    }
  }

  /** The filter bar is rendered (`showCategories && categories.length > 1`) exactly when it is
      enabled and some image has a truthy category. */
  lemma FilterBarShownIff(images: seq<GalleryImage>, showCategories: bool)
    ensures (showCategories && |Categories(images)| > 1) <==>
      showCategories && exists i, c | 0 <= i < |images| :: HasCategory(images[i], c)
  {
    var cats := Categories(images);
    if exists i, c | 0 <= i < |images| :: HasCategory(images[i], c) {
      var i, c :| 0 <= i < |images| && HasCategory(images[i], c);
      assert c in cats[1..];
    }
    if |cats| > 1 {
      assert cats[1] in cats[1..];
    }
  }

  /** The component's state over fixed props. */
  class GalleryView {
    const images: seq<GalleryImage>
    const showCategories: bool
    var filter: string
    var selectedImage: Option<GalleryImage>

    /** The filter is one of the buttons, and a selected image is one of the images. */
    ghost predicate Valid()
      reads this
    {
      && filter in Categories(images)
      && (selectedImage.Some? ==> selectedImage.value in images)
    }

    /** The grid as currently rendered. */
    function Visible(): seq<GalleryImage>
      reads this
    {
      Shown(images, filter)
    }

    constructor (images: seq<GalleryImage>, showCategories: bool)
      ensures Valid()
      ensures this.images == images && this.showCategories == showCategories
      ensures filter == "all" && selectedImage == None
      ensures Visible() == images
    {
      this.images := images;
      this.showCategories := showCategories;
      filter := "all";
      selectedImage := None;
    }

    /** A category button's click, `setFilter(category || 'all')`: the categories are never
        empty, so the fallback never applies and the filter becomes the button's category. */
    method SelectCategory(category: string)
      requires Valid() && category in Categories(images)
      modifies this
      ensures Valid()
      ensures filter == category && selectedImage == old(selectedImage)
      ensures category == "all" ==> Visible() == images
      ensures category != "all" ==> forall k | 0 <= k < |Visible()| :: Visible()[k].category == Some(category)
    {
      var cats := Categories(images);
      if category != "all" {
        var k :| 0 <= k < |cats| && cats[k] == category;
        assert cats[1..][k - 1] == category;
      }
      filter := if category != "" then category else "all";
    }

    /** A grid image's click: the lightbox opens on it. */
    method OpenImage(index: nat)
      requires Valid() && index < |Visible()|
      modifies this
      ensures Valid()
      ensures selectedImage == Some(old(Visible())[index]) && filter == old(filter)
    {
      selectedImage := Some(Visible()[index]);
    }

    /** The lightbox backdrop's or its close button's click. */
    method CloseLightbox()
      requires Valid()
      modifies this
      ensures Valid()
      ensures selectedImage == None && filter == old(filter)
    {
      selectedImage := None;
    }
  }
}
