/**
 * `PageList.renderPageImages`: every page of the list is given a thumbnail
 * class and, when it has a thumbnail, a background-image style; the pages
 * are indexed by title, and the list items whose title attribute names a
 * page get that page's class and style on their `.list-thumb` elements.
 *
 * The pages and the list items are arrays updated in place. The timer that
 * delays the work and the DOM queries that find the items are left out:
 * the items are given.
 */
module PageList {
  import opened Wrappers
  import opened Strings

  datatype Thumbnail = Thumbnail(source: string, width: int, height: int)

  /** A page object of the list's options; the last two fields are the ones the rendering sets. */
  datatype Page = Page(title: Option<string>, thumbnail: Option<Thumbnail>,
                       listThumbStyleAttribute: Option<string>, pageimageClass: Option<string>)

  /** A `.list-thumb` element: its class names in order and its style attribute. */
  datatype ThumbElement = ThumbElement(classes: seq<string>, style: Option<string>)

  /** An `li` of the list: its title attribute and its `.list-thumb` descendants. */
  datatype ListItem = ListItem(title: Option<string>, thumbs: seq<ThumbElement>)

  const LandscapeClass := "list-thumb-y"
  const PortraitClass := "list-thumb-x"
  const MissingClass := "list-thumb-none"
  /** The class of a page without a thumbnail: two class names. */
  const NoThumbnailClass := MissingClass + " " + PortraitClass

  function BackgroundImage(source: string): string
  {
    "background-image: url(" + source + ")"
  }

  // ---------------------------------------------------------------------
  // Class names

  /** The strings of `ss` that are not empty, in order. */
  function NonEmpty(ss: seq<string>): (r: seq<string>)
    ensures forall w :: w in r <==> w in ss && w != ""
    ensures (forall w :: w in ss ==> w != "") ==> r == ss
  {
    if ss == [] then []
    else if ss[0] == "" then
      assert ss[0] in ss;
      NonEmpty(ss[1..])
    else
      assert forall w :: w in ss[1..] ==> w in ss;
      assert ss == [ss[0]] + ss[1..];
      [ss[0]] + NonEmpty(ss[1..])
  }

  /** The class names in a class attribute value: its space-separated words. */
  function Words(s: string): (ws: seq<string>)
    ensures forall w :: w in ws ==> w != "" && ' ' !in w
  {
    NonEmpty(Split(s, ' '))
  }

  /** A list of class names written out with single spaces reads back as the same list. */
  lemma WordsOfJoin(ws: seq<string>)
    requires |ws| >= 1
    requires forall w :: w in ws ==> w != "" && ' ' !in w
    ensures Words(Join(ws, ' ')) == ws
  {
    SplitJoin(ws, ' ');
  }

  /**
   * `addClass`: each name not yet present is appended, in order; the
   * classes already there stay where they are.
   */
  function AddNames(classes: seq<string>, names: seq<string>): (r: seq<string>)
    ensures |classes| <= |r| && r[..|classes|] == classes
    ensures forall w :: w in r <==> w in classes || w in names
    decreases |names|
  {
    if names == [] then classes
    else
      var next := if names[0] in classes then classes else classes + [names[0]];
      var r := AddNames(next, names[1..]);
      assert r[..|classes|] == next[..|classes|] == classes;
      r
  }

  /** No class name occurs twice. */
  predicate Distinct(classes: seq<string>)
  {
    forall i, j :: 0 <= i < j < |classes| ==> classes[i] != classes[j]
  }

  /** `addClass` never adds a class name twice. */
  lemma {:induction false} AddNamesDistinct(classes: seq<string>, names: seq<string>)
    requires Distinct(classes)
    ensures Distinct(AddNames(classes, names))
    decreases |names|
  {
    if names != [] {
      var next := if names[0] in classes then classes else classes + [names[0]];
      assert Distinct(next) by {
        if names[0] !in classes {
          forall i, j | 0 <= i < j < |next|
            ensures next[i] != next[j]
          {
            if j == |classes| {
              assert next[i] == classes[i];
            }
          }
        }
      }
      AddNamesDistinct(next, names[1..]);
    }
  }

  function AddClass(classes: seq<string>, value: string): seq<string>
  {
    AddNames(classes, Words(value))
  }

  // ---------------------------------------------------------------------
  // One page

  /**
   * The decoration of one page: a page with a thumbnail gets its
   * background-image style, and its class tells whether it is wider than
   * high; a page without one keeps its style attribute.
   */
  function Decorate(p: Page): (q: Page)
    ensures q.title == p.title && q.thumbnail == p.thumbnail && q.pageimageClass.Some?
    ensures p.thumbnail.Some? ==> q.listThumbStyleAttribute == Some(BackgroundImage(p.thumbnail.value.source))
    ensures p.thumbnail.None? ==> q.listThumbStyleAttribute == p.listThumbStyleAttribute
  {
    match p.thumbnail
    case Some(thumb) =>
      p.(listThumbStyleAttribute := Some(BackgroundImage(thumb.source)),
         pageimageClass := Some(if thumb.width > thumb.height then LandscapeClass else PortraitClass))
    case None =>
      p.(pageimageClass := Some(NoThumbnailClass))
  }

  /** A thumbnail wider than high, strictly. */
  predicate Landscape(p: Page)
  {
    p.thumbnail.Some? && p.thumbnail.value.width > p.thumbnail.value.height
  }

  /**
   * The class names a decorated page carries: `list-thumb-y` exactly for
   * a landscape thumbnail, `list-thumb-x` exactly otherwise (a square one
   * included), and `list-thumb-none` exactly when there is no thumbnail.
   */
  lemma DecoratedClasses(p: Page)
    ensures var ws := Words(Decorate(p).pageimageClass.value);
      && (LandscapeClass in ws <==> Landscape(p))
      && (PortraitClass in ws <==> !Landscape(p))
      && (MissingClass in ws <==> p.thumbnail.None?)
      && |ws| == (if p.thumbnail.None? then 2 else 1)
  {
    assert LandscapeClass[11] != PortraitClass[11];
    assert MissingClass[11] != PortraitClass[11] && MissingClass[11] != LandscapeClass[11];
    if p.thumbnail.None? {
      NoThumbnailWords();
    } else if Landscape(p) {
      SingleWord(LandscapeClass);
    } else {
      SingleWord(PortraitClass);
    }
  }

  lemma SingleWord(c: string)
    requires c != "" && ' ' !in c
    ensures Words(c) == [c]
  {
    assert Join([c], ' ') == c;
    WordsOfJoin([c]);
  }

  lemma NoThumbnailWords()
    ensures Words(NoThumbnailClass) == [MissingClass, PortraitClass]
  {
    var a, b := MissingClass, PortraitClass;
    assert ' ' !in a && ' ' !in b;
    assert Join([a, b], ' ') == a + [' '] + b;
    WordsOfJoin([a, b]);
  }

  // ---------------------------------------------------------------------
  // The title map

  /** A JavaScript property key: an undefined title is the key "undefined". */
  function TitleKey(title: Option<string>): string
  {
    match title
    case Some(t) => t
    case None => "undefined"
  }

  /** `pages[page.title] = page` for every page in turn. */
  function TitleMap(pages: seq<Page>): map<string, Page>
  {
    if pages == [] then map[]
    else
      var page := pages[|pages| - 1];
      TitleMap(pages[..|pages| - 1])[TitleKey(page.title) := page]
  }

  /** The map holds the title of every page, and nothing else. */
  lemma {:induction false} TitleMapKeys(pages: seq<Page>)
    ensures forall key :: key in TitleMap(pages) <==>
      exists i :: 0 <= i < |pages| && TitleKey(pages[i].title) == key
  {
    if pages != [] {
      var init := pages[..|pages| - 1];
      TitleMapKeys(init);
      assert forall i :: 0 <= i < |init| ==> init[i] == pages[i];
    }
  }

  /** A title is mapped to the last page that has it: a later page replaces an earlier one. */
  lemma {:induction false} TitleMapLaterWins(pages: seq<Page>, i: nat)
    requires i < |pages|
    requires forall j :: i < j < |pages| ==> TitleKey(pages[j].title) != TitleKey(pages[i].title)
    ensures TitleKey(pages[i].title) in TitleMap(pages)
    ensures TitleMap(pages)[TitleKey(pages[i].title)] == pages[i]
    decreases |pages|
  {
    if i < |pages| - 1 {
      var init := pages[..|pages| - 1];
      assert init[i] == pages[i];
      assert forall j :: i < j < |init| ==> init[j] == pages[j];
      TitleMapLaterWins(init, i);
    }
  }

  // ---------------------------------------------------------------------
  // One list item

  /**
   * `addClass(page.pageimageClass).attr('style', page.listThumbStyleAttribute)`
   * on one element: an undefined class adds nothing, and jQuery's `attr`
   * called with an undefined value returns the element without setting
   * anything, so the style stays as it was.
   */
  function DecorateThumb(t: ThumbElement, page: Page): ThumbElement
  {
    ThumbElement(
      match page.pageimageClass
      case Some(c) => AddClass(t.classes, c)
      case None => t.classes,
      match page.listThumbStyleAttribute
      case Some(style) => Some(style)
      case None => t.style)
  }

  /** The decoration of one list item, given the title map. */
  function DecorateItem(li: ListItem, byTitle: map<string, Page>): (r: ListItem)
    ensures r.title == li.title && |r.thumbs| == |li.thumbs|
  {
    var key := TitleKey(li.title);
    if key in byTitle then
      li.(thumbs := seq(|li.thumbs|, k requires 0 <= k < |li.thumbs| => DecorateThumb(li.thumbs[k], byTitle[key])))
    else li
  }

  /**
   * An item whose title is not in the map is left as it is; every
   * `.list-thumb` of one whose title is keeps its classes, gains the page's
   * class names and takes the page's style when the page has one.
   */
  lemma ItemDecoration(li: ListItem, byTitle: map<string, Page>)
    ensures var r := DecorateItem(li, byTitle); var key := TitleKey(li.title);
      && (key !in byTitle ==> r == li)
      && (key in byTitle && byTitle[key].pageimageClass.Some? ==>
            forall k :: 0 <= k < |li.thumbs| ==>
              && r.thumbs[k].classes[..|li.thumbs[k].classes|] == li.thumbs[k].classes
              && (forall w :: w in r.thumbs[k].classes <==>
                    w in li.thumbs[k].classes || w in Words(byTitle[key].pageimageClass.value)))
      && (key in byTitle ==>
            forall k :: 0 <= k < |li.thumbs| ==>
              r.thumbs[k].style == if byTitle[key].listThumbStyleAttribute.Some?
                                  then byTitle[key].listThumbStyleAttribute
                                  else li.thumbs[k].style)
  {
  }

  // ---------------------------------------------------------------------
  // renderPageImages

  /** The first loop: decorates every page in place and builds the title map. */
  method DecoratePages(pages: array<Page>) returns (byTitle: map<string, Page>)
    modifies pages
    ensures forall i :: 0 <= i < pages.Length ==> pages[i] == Decorate(old(pages[i]))
    ensures byTitle == TitleMap(pages[..])
  {
    byTitle := map[];
    var i := 0;
    while i < pages.Length
      invariant 0 <= i <= pages.Length
      invariant forall k :: 0 <= k < i ==> pages[k] == Decorate(old(pages[k]))
      invariant forall k :: i <= k < pages.Length ==> pages[k] == old(pages[k])
      invariant byTitle == TitleMap(pages[..i])
    {
      ghost var before := pages[..i];
      var page := Decorate(pages[i]);
      pages[i] := page;
      byTitle := byTitle[TitleKey(page.title) := page];
      assert pages[..i + 1] == before + [page];
      assert pages[..i + 1][..i] == before;
      i := i + 1;
    }
    assert pages[..] == pages[..pages.Length];
  }

  /** The second loop: decorates every list item in place from the title map. */
  method DecorateItems(items: array<ListItem>, byTitle: map<string, Page>)
    modifies items
    ensures forall i :: 0 <= i < items.Length ==> items[i] == DecorateItem(old(items[i]), byTitle)
  {
    var i := 0;
    while i < items.Length
      invariant 0 <= i <= items.Length
      invariant forall k :: 0 <= k < i ==> items[k] == DecorateItem(old(items[k]), byTitle)
      invariant forall k :: i <= k < items.Length ==> items[k] == old(items[k])
    {
      items[i] := DecorateItem(items[i], byTitle);
      i := i + 1;
    }
  }

  /**
   * `renderPageImages`: with images disabled nothing changes; otherwise
   * every page is decorated and every item is decorated from the map of
   * the decorated pages by title.
   */
  method RenderPageImages(pages: array<Page>, items: array<ListItem>, imagesDisabled: bool)
    modifies pages, items
    ensures imagesDisabled ==> pages[..] == old(pages[..]) && items[..] == old(items[..])
    ensures !imagesDisabled ==> forall i :: 0 <= i < pages.Length ==> pages[i] == Decorate(old(pages[i]))
    ensures !imagesDisabled ==>
      forall i :: 0 <= i < items.Length ==> items[i] == DecorateItem(old(items[i]), TitleMap(pages[..]))
  {
    if !imagesDisabled {
      var byTitle := DecoratePages(pages);
      DecorateItems(items, byTitle);
    }
  }
}
