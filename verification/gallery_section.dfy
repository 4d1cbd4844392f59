/** The public gallery: a category filter over a fixed list of photos and a
    lightbox that steps through the filtered photos with wrap-around. */
module GallerySection {
  import opened Options
  import opened Seqs
  import opened JsNumber

  datatype Image = Image(id: int, src: string, alt: string, category: string)

  /** The filter that shows every photo. */
  const ShowAll := "Semua"

  /** The filter buttons, in display order. */
  const Filters: seq<string> := [ShowAll, "Kamar", "Fasilitas", "Restoran", "Lobby"]

  /** The photos of the section, as listed in the component. */
  const Catalogue: seq<Image> := [
    Image(1, "https://images.unsplash.com/photo-1566073771259-6a8506099945?q=80&w=2070", "Lobby Hotel", "Lobby"),
    Image(2, "https://images.unsplash.com/photo-1611892440504-42a792e24d32?q=80&w=2070", "Kamar Deluxe", "Kamar"),
    Image(3, "https://images.unsplash.com/photo-1571896349842-33c89424de2d?q=80&w=2080", "Kolam Renang", "Fasilitas"),
    Image(4, "https://images.unsplash.com/photo-1584132967334-10e028bd69f7?q=80&w=2070", "Restoran", "Restoran"),
    Image(5, "https://images.unsplash.com/photo-1590490360182-c33d57733427?q=80&w=2074", "Suite Room", "Kamar"),
    Image(6, "https://images.unsplash.com/photo-1540541338287-41700207dee6?q=80&w=2070", "Pool View", "Fasilitas"),
    Image(7, "https://images.unsplash.com/photo-1600334129128-685c5582fd35?q=80&w=2070", "Spa", "Fasilitas"),
    Image(8, "https://images.unsplash.com/photo-1582719478250-c89cae4dc85b?q=80&w=2070", "Presidential Suite", "Kamar")
  ]

  /** `images.filter(img => img.category === category)`: exactly the photos
      of that category, each as often as in the list, in their original
      order. */
  function OfCategory(images: seq<Image>, category: string): (r: seq<Image>)
    ensures |r| <= |images|
    ensures forall x :: x in r <==> x in images && x.category == category
    ensures forall x :: multiset(r)[x] == if x.category == category then multiset(images)[x] else 0
    ensures IsSubsequence(r, images)
  {
    if images == [] then []
    else
      var rest := OfCategory(images[1..], category);
      assert forall x :: x in images <==> x == images[0] || x in images[1..];
      assert multiset(images) == multiset{images[0]} + multiset(images[1..]) by {
        assert images == [images[0]] + images[1..];
      }
      if images[0].category == category then
        var r := [images[0]] + rest;
        assert r[1..] == rest;
        assert multiset(r) == multiset{images[0]} + multiset(rest);
        r
      else
        SubsequenceOfTail(rest, images);
        rest
  }

  /** `filteredImages`: the whole list under `'Semua'`, otherwise the photos
      of the chosen category. */
  function Filtered(images: seq<Image>, activeFilter: string): (r: seq<Image>)
    ensures activeFilter == ShowAll ==> r == images
    ensures activeFilter != ShowAll ==> forall x :: x in r <==> x in images && x.category == activeFilter
    ensures activeFilter != ShowAll ==> forall x :: multiset(r)[x] == if x.category == activeFilter then multiset(images)[x] else 0
    ensures IsSubsequence(r, images)
  {
    if activeFilter == ShowAll then
      SubsequenceOfItself(images);
      images
    else OfCategory(images, activeFilter)
  }

  /** Every filter button of the section shows at least one photo, so the
      lightbox is never opened over an empty list. */
  lemma EveryFilterShowsAPhoto(f: string)
    requires f in Filters
    ensures |Filtered(Catalogue, f)| > 0
  {
    var witnesses := map["Semua" := 0, "Kamar" := 1, "Fasilitas" := 2, "Restoran" := 3, "Lobby" := 0];
    ShownPhoto(Catalogue, f, witnesses[f]);
  }

  /** A photo of the chosen category, or any photo under `'Semua'`, is
      shown. */
  lemma ShownPhoto(images: seq<Image>, f: string, i: int)
    requires 0 <= i < |images| && (f == ShowAll || images[i].category == f)
    ensures images[i] in Filtered(images, f)
  {
  }

  /** The lightbox selection: `null` when closed, else a position in the
      filtered list. */
  type Selection = Option<int>

  /** The selection points into a list of `n` photos, or the lightbox is
      closed. */
  predicate Valid(selected: Selection, n: nat) {
    selected.None? || 0 <= selected.value < n
  }

  /** `openLightbox(index)`, called with the position of a grid item. */
  function Open(index: int, n: nat): (r: Selection)
    requires 0 <= index < n
    ensures Valid(r, n) && r == Some(index)
  {
    Some(index)
  }

  /** `closeLightbox()`: a closed lightbox fits any list, and the arrow
      keys leave it closed. */
  function Close(): (r: Selection)
    ensures r.None?
    ensures forall n: nat :: Valid(r, n) && Next(r, n) == r && Previous(r, n) == r
  {
    None
  }

  /** `goToNext`: `(i + 1) % n` with JavaScript's `%`; nothing when closed. */
  function Next(selected: Selection, n: nat): (r: Selection)
    requires Valid(selected, n)
    ensures Valid(r, n)
    ensures r.None? <==> selected.None?
    ensures selected.Some? && selected.value < n - 1 ==> r == Some(selected.value + 1)
    ensures selected.Some? && selected.value == n - 1 ==> r == Some(0)
  {
    match selected
    case None => None
    case Some(i) => Some(JsRem(i + 1, n))
  }

  /** `goToPrevious`: `(i - 1 + n) % n` with JavaScript's `%`; nothing when
      closed. */
  function Previous(selected: Selection, n: nat): (r: Selection)
    requires Valid(selected, n)
    ensures Valid(r, n)
    ensures r.None? <==> selected.None?
    ensures selected.Some? && selected.value > 0 ==> r == Some(selected.value - 1)
    ensures selected.Some? && selected.value == 0 ==> r == Some(n - 1)
  {
    match selected
    case None => None
    case Some(i) =>
      assert (i - 1 + n) % n == (if i > 0 then i - 1 else n - 1) by {
        if i > 0 {
          assert i - 1 + n == (i - 1) + 1 * n;
        }
      }
      Some(JsRem(i - 1 + n, n))
  }

  /** Next and previous undo each other. */
  lemma NextPreviousInverse(selected: Selection, n: nat)
    requires Valid(selected, n)
    ensures Previous(Next(selected, n), n) == selected
    ensures Next(Previous(selected, n), n) == selected
  {
  }

  /** `k` steps forward land on `(i + k) % n`. */
  function StepsForward(selected: Selection, n: nat, k: nat): (r: Selection)
    requires Valid(selected, n)
    ensures Valid(r, n)
  {
    if k == 0 then selected else Next(StepsForward(selected, n, k - 1), n)
  }

  lemma {:induction false} StepsForwardWrap(i: int, n: nat, k: nat)
    requires 0 <= i < n
    ensures StepsForward(Some(i), n, k) == Some((i + k) % n)
  {
    if k > 0 {
      StepsForwardWrap(i, n, k - 1);
      ModSuccessor(i + k - 1, n);
    }
  }

  /** Division with remainder has one answer: `q * n + r` with `0 <= r < n`
      leaves remainder `r`. */
  lemma ModUnique(a: int, n: int, q: int, r: int)
    requires n > 0 && 0 <= r < n && a == q * n + r
    ensures a % n == r
  {
    var r' := a % n;
    var q' := a / n;
    assert a == q' * n + r';
    assert q * n - q' * n == r' - r;
    assert (q - q') * n == q * n - q' * n;
    if q > q' {
      MulAtLeast(q - q', n);
    } else if q < q' {
      MulAtLeast(q' - q, n);
    }
  }

  lemma MulAtLeast(d: int, n: int)
    requires d >= 1 && n > 0
    ensures d * n >= n
  {
    assert d * n == (d - 1) * n + n;
    assert (d - 1) * n >= 0;
  }

  lemma ModSuccessor(a: nat, n: nat)
    requires n > 0
    ensures (a + 1) % n == if a % n == n - 1 then 0 else a % n + 1
  {
    var q := a / n;
    assert a == q * n + a % n;
    if a % n == n - 1 {
      assert a + 1 == (q + 1) * n + 0;
      ModUnique(a + 1, n, q + 1, 0);
    } else {
      ModUnique(a + 1, n, q, a % n + 1);
    }
  }

  /** `n` steps forward go once around and come back to the start. */
  lemma FullCircle(selected: Selection, n: nat)
    requires Valid(selected, n)
    ensures StepsForward(selected, n, n) == selected
  {
    if selected.Some? {
      StepsForwardWrap(selected.value, n, n);
      ModUnique(selected.value + n, n, 1, selected.value);
    } else {
      StepsForwardNone(n, n);
    }
  }

  lemma {:induction false} StepsForwardNone(n: nat, k: nat)
    ensures StepsForward(None, n, k) == None
  {
    if k > 0 {
      StepsForwardNone(n, k - 1);
    }
  }

  /** The counter under the open photo, `{i + 1} / {n}`: a 1-based position
      that never exceeds the number of photos. */
  function Counter(selected: Selection, n: nat): (r: (int, int))
    requires Valid(selected, n) && selected.Some?
    ensures 1 <= r.0 <= r.1 == n
    ensures r.0 - 1 == selected.value
  {
    (selected.value + 1, n)
  }
}
