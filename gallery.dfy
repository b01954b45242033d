/**
 * The gallery of src/components/Gallery.js: the fixed list of 32 photos,
 * their captions and mosaic tile sizes, the optional `limit` on how many
 * are shown, and the lightbox whose open index moves with the previous and
 * next buttons and the arrow keys.
 */
module Gallery {
  import opened Js

  /** The name of the photo at position `i`, counting from 0. */
  function FileName(i: nat): string
  {
    NatToString(i + 1) + ".JPG"
  }

  /** `galleryFileNames`: the photos `1.JPG` to `32.JPG` under public/images/gallery. */
  function FileNames(): (names: seq<string>)
    ensures |names| == 32
  {
    seq(32, i requires 0 <= i => FileName(i))
  }

  datatype Size = Wide | Square | Tall

  /** `mosaicPattern`: the tile sizes, repeated every fifteen tiles. */
  const MosaicPattern: seq<Size> := [
    Wide, Square, Square, Tall, Square, Wide, Square, Tall, Square, Square, Wide, Square, Tall, Square, Square
  ]

  /** `name.replace(/\.JPG$/i, '')`: drop a final `.jpg` in any letter case. */
  function StripJpg(name: string): (r: string)
    ensures |r| <= |name| && r == name[..|r|]
    ensures |name| >= 4 && Lower(name[|name| - 4..]) == ".jpg" ==> |r| == |name| - 4
    ensures !(|name| >= 4 && Lower(name[|name| - 4..]) == ".jpg") ==> r == name
  {
    if |name| >= 4 && Lower(name[|name| - 4..]) == ".jpg" then name[..|name| - 4] else name
  }

  /** `makeCaption`. */
  function MakeCaption(name: string): string
  {
    "Project " + StripJpg(name)
  }

  /** The caption of `stem + ext` is `Project stem` whenever `ext` spells `.jpg` in any case. */
  lemma CaptionOfJpg(stem: string, ext: string)
    requires |ext| == 4 && Lower(ext) == ".jpg"
    ensures MakeCaption(stem + ext) == "Project " + stem
  {
    var name := stem + ext;
    assert name[|name| - 4..] == ext;
    assert name[..|name| - 4] == stem;
  }

  /** Captions of the shipped photos: `Project 1` for `1.JPG`, and so on. */
  lemma CaptionOfShippedPhoto(i: int)
    requires 0 <= i < |FileNames()|
    ensures MakeCaption(FileNames()[i]) == "Project " + NatToString(i + 1)
  {
    assert FileNames()[i] == NatToString(i + 1) + ".JPG";
    assert Lower(".JPG") == ".jpg";
    CaptionOfJpg(NatToString(i + 1), ".JPG");
  }

  /**
   * A name ending in any other four-character extension (`.png`, `.gif`,
   * `.jpeg`'s last four) keeps it in the caption.
   */
  lemma CaptionKeepsOtherExtension(stem: string, ext: string)
    requires |ext| == 4 && Lower(ext) != ".jpg"
    ensures MakeCaption(stem + ext) == "Project " + stem + ext
  {
    var name := stem + ext;
    assert name[|name| - 4..] == ext;
  }

  /** One entry of `GALLERY_ITEMS`. */
  datatype Item = Item(src: string, alt: string, caption: string, size: Size)

  /** `GALLERY_ITEMS`, for the deployment prefix `process.env.PUBLIC_URL`. */
  function GalleryItems(publicUrl: string): (items: seq<Item>)
    ensures |items| == |FileNames()|
    ensures forall i :: 0 <= i < |items| ==> items[i].size == MosaicPattern[i % |MosaicPattern|]
    ensures forall i :: 0 <= i < |items| ==> items[i].caption == items[i].alt == MakeCaption(FileNames()[i])
    ensures forall i :: 0 <= i < |items| ==> items[i].src == publicUrl + "/images/gallery/" + FileNames()[i]
  {
    seq(|FileNames()|, i requires 0 <= i < |FileNames()| =>
      Item(publicUrl + "/images/gallery/" + FileNames()[i], MakeCaption(FileNames()[i]), MakeCaption(FileNames()[i]),
           MosaicPattern[i % |MosaicPattern|]))
  }

  /** Tiles fifteen apart have the same size. */
  lemma MosaicRepeats(publicUrl: string, i: int)
    requires 0 <= i && i + |MosaicPattern| < |FileNames()|
    ensures GalleryItems(publicUrl)[i].size == GalleryItems(publicUrl)[i + |MosaicPattern|].size
  {
    assert (i + |MosaicPattern|) % |MosaicPattern| == i % |MosaicPattern|;
  }

  /** JavaScript's `a % b`: the remainder takes the sign of `a`. */
  function JsRem(a: int, b: int): (r: int)
    requires b != 0
    ensures a >= 0 ==> 0 <= r < if b > 0 then b else -b
    ensures a >= 0 && b > 0 ==> r == a % b
  {
    if a >= 0 then a % b else -((-a) % b)
  }

  /** `limit` as a truthy test sees it: `null` and `0` mean no limit. */
  predicate HasLimit(limit: Option<int>)
  {
    limit.Some? && limit.value != 0
  }

  /** `totalItems`: `min(limit, 32)` with a limit, 32 without. */
  function TotalItems(limit: Option<int>): (total: int)
    ensures total != 0
    ensures !HasLimit(limit) ==> total == |FileNames()|
    ensures HasLimit(limit) && limit.value > 0 ==> 1 <= total <= |FileNames()| && total <= limit.value
    ensures HasLimit(limit) && limit.value > 0 ==> total == limit.value || total == |FileNames()|
  {
    if HasLimit(limit) then (if limit.value < |FileNames()| then limit.value else |FileNames()|) else |FileNames()|
  }

  /** `GALLERY_ITEMS.slice(0, limit)` with a limit, all items without. */
  function ItemsToRender(publicUrl: string, limit: Option<int>): (items: seq<Item>)
    ensures HasLimit(limit) && limit.value > 0 ==> |items| == TotalItems(limit)
    ensures !HasLimit(limit) ==> items == GalleryItems(publicUrl)
    ensures |items| <= |FileNames()| && items == GalleryItems(publicUrl)[..|items|]
  {
    var all := GalleryItems(publicUrl);
    if !HasLimit(limit) then all
    else
      var end := if limit.value < 0 then (if |all| + limit.value < 0 then 0 else |all| + limit.value)
                 else if limit.value < |all| then limit.value else |all|;
      all[..end]
  }

  /** `openLightbox(index)`. */
  function OpenIndex(index: int, total: int): (r: int)
    requires total != 0
    ensures 0 <= index && 0 < total ==> 0 <= r < total
  {
    JsRem(index, total)
  }

  /** The updater of `showPrev` and of ArrowLeft: one back, wrapping to the end; a closed lightbox stays closed. */
  function Prev(index: Option<int>, total: int): (r: Option<int>)
    requires total != 0
    ensures index.None? <==> r.None?
    ensures index.Some? && 0 <= index.value < total ==> r.Some? && 0 <= r.value < total
  {
    if index.None? then None else Some(JsRem(index.value + total - 1, total))
  }

  /** The updater of `showNext` and of ArrowRight: one forward, wrapping to the start. */
  function Next(index: Option<int>, total: int): (r: Option<int>)
    requires total != 0
    ensures index.None? <==> r.None?
    ensures index.Some? && 0 <= index.value && 0 < total ==> r.Some? && 0 <= r.value < total
  {
    if index.None? then None else Some(JsRem(index.value + 1, total))
  }

  /** `a % b` for `a` below `b`. */
  lemma ModBelow(a: int, b: int)
    requires 0 <= a < b
    ensures a % b == a
  {
  }

  /** `a % b` for `a` between `b` and `2 * b`. */
  lemma ModWrap(a: int, b: int)
    requires 0 < b <= a < 2 * b
    ensures a % b == a - b
  {
  }

  /** Next undoes Prev and Prev undoes Next on an index in range. */
  lemma PrevNextInverse(i: int, total: int)
    requires 0 <= i < total
    ensures Next(Prev(Some(i), total), total) == Some(i)
    ensures Prev(Next(Some(i), total), total) == Some(i)
  {
    var p := if i == 0 then total - 1 else i - 1;
    if i == 0 { ModBelow(i + total - 1, total); } else { ModWrap(i + total - 1, total); }
    assert Prev(Some(i), total) == Some(p);
    if p + 1 == total { ModWrap(p + 1, total); } else { ModBelow(p + 1, total); }
    var n := if i + 1 == total then 0 else i + 1;
    if i + 1 == total { ModWrap(i + 1, total); } else { ModBelow(i + 1, total); }
    assert Next(Some(i), total) == Some(n);
    if n == 0 { ModBelow(n + total - 1, total); } else { ModWrap(n + total - 1, total); }
  }

  /** `n` presses of Next. */
  function NextTimes(index: Option<int>, total: int, n: nat): Option<int>
    requires total != 0
    decreases n
  {
    if n == 0 then index else NextTimes(Next(index, total), total, n - 1)
  }

  /** Up to `total` presses of Next move `n` places forward, wrapping once past the end. */
  lemma {:induction false} NextTimesMoves(i: int, total: int, n: nat)
    requires 0 <= i < total && n <= total
    ensures NextTimes(Some(i), total, n) == Some(if i + n < total then i + n else i + n - total)
    decreases n
  {
    if n > 0 {
      if i + 1 < total {
        ModBelow(i + 1, total);
        NextTimesMoves(i + 1, total, n - 1);
      } else {
        ModWrap(i + 1, total);
        NextTimesMoves(0, total, n - 1);
      }
    }
  }

  /** Pressing Next `total` times brings the lightbox back to the photo it started on. */
  lemma FullCycle(i: int, total: int)
    requires 0 <= i < total
    ensures NextTimes(Some(i), total, total) == Some(i)
  {
    NextTimesMoves(i, total, total);
  }

  /** The item the lightbox shows: only for an index inside the rendered items. */
  function ActiveItem(items: seq<Item>, index: Option<int>): (r: Option<Item>)
    ensures r.Some? <==> index.Some? && 0 <= index.value < |items|
    ensures r.Some? ==> r.value == items[index.value]
  {
    if index.Some? && 0 <= index.value < |items| then Some(items[index.value]) else None
  }

  /** With a positive limit or none, every index reached by opening a tile shows an item. */
  lemma OpenedTileIsShown(publicUrl: string, limit: Option<int>, tile: int)
    requires !HasLimit(limit) || limit.value > 0
    requires 0 <= tile < |ItemsToRender(publicUrl, limit)|
    ensures ActiveItem(ItemsToRender(publicUrl, limit), Some(OpenIndex(tile, TotalItems(limit))))
         == Some(ItemsToRender(publicUrl, limit)[tile])
  {
    ModBelow(tile, TotalItems(limit));
  }

  /** The lightbox state of one mounted gallery: its `limit` prop and `lightboxIndex`. */
  class Lightbox {
    const publicUrl: string
    var limit: Option<int>
    var index: Option<int>

    /** The index is always inside the rendered items, or the lightbox is closed. */
    ghost predicate Valid()
      reads this
    {
      (!HasLimit(limit) || limit.value > 0) &&
      (index.Some? ==> 0 <= index.value < TotalItems(limit))
    }

    constructor (publicUrl: string, limit: Option<int>)
      requires !HasLimit(limit) || limit.value > 0
      ensures Valid()
      ensures this.publicUrl == publicUrl && this.limit == limit && index == None
    {
      this.publicUrl := publicUrl;
      this.limit := limit;
      index := None;
    }

    /** The lightbox's current item, if any. */
    function Shown(): (r: Option<Item>)
      reads this
      ensures Valid() && index.Some? ==> r.Some?
    {
      ActiveItem(ItemsToRender(publicUrl, limit), index)
    }

    /** `openLightbox(tile)` from a tile's click handler. */
    method Open(tile: int)
      requires Valid() && 0 <= tile
      modifies this`index
      ensures Valid()
      ensures index == Some(OpenIndex(tile, TotalItems(limit)))
    {
      index := Some(OpenIndex(tile, TotalItems(limit)));
    }

    /** `closeLightbox`. */
    method Close()
      requires Valid()
      modifies this`index
      ensures Valid() && index == None
    {
      index := None;
    }

    /** `showPrev`. */
    method ShowPrev()
      requires Valid()
      modifies this`index
      ensures Valid()
      ensures index == Prev(old(index), TotalItems(limit))
    {
      index := Prev(index, TotalItems(limit));
    }

    /** `showNext`. */
    method ShowNext()
      requires Valid()
      modifies this`index
      ensures Valid()
      ensures index == Next(old(index), TotalItems(limit))
    {
      index := Next(index, TotalItems(limit));
    }

    /**
     * The keydown listener, registered only while the lightbox is open:
     * Escape closes it, ArrowLeft and ArrowRight step; other keys and a
     * closed lightbox change nothing.
     */
    method OnKey(key: string)
      requires Valid()
      modifies this`index
      ensures Valid()
      ensures old(index).None? ==> index == None
      ensures old(index).Some? ==>
        index == (if key == "Escape" then None
                  else if key == "ArrowLeft" then Prev(old(index), TotalItems(limit))
                  else if key == "ArrowRight" then Next(old(index), TotalItems(limit))
                  else old(index))
    {
      if index.None? {
        return;
      }
      if key == "Escape" {
        index := None;
      }
      if key == "ArrowLeft" {
        index := Prev(index, TotalItems(limit));
      }
      if key == "ArrowRight" {
        index := Next(index, TotalItems(limit));
      }
    }

    /**
     * A new `limit` prop followed by the clamping effect: an open index at
     * or past the new total moves to the last item.
     */
    method SetLimit(newLimit: Option<int>)
      requires Valid()
      requires !HasLimit(newLimit) || newLimit.value > 0
      modifies this`limit, this`index
      ensures Valid()
      ensures limit == newLimit
      ensures index == if old(index).Some? && old(index).value >= TotalItems(newLimit)
                       then Some(TotalItems(newLimit) - 1) else old(index)
    {
      limit := newLimit;
      if index.Some? && index.value >= TotalItems(limit) {
        index := Some(TotalItems(limit) - 1);
      }
    }
  }
}
