/**
 * The PDF merge pipeline: the uploaded files of one request are turned, in
 * upload order, into the pages of one output document. The create route
 * resizes each image to fit an A4 page and centres it, skipping an image
 * that fails; the modify route puts each image on a page of its own size
 * and fails the request instead. Both copy every page of a PDF and ignore
 * any other extension.
 *
 * The image codecs and the PDF library are not modelled: a stored file's
 * content is abstracted to what they would report (an image's pixel size
 * and format, a PDF's page count, or bytes they reject).
 */
module Merge {
  import opened Wrappers
  import opened Strings

  /** The A4 page size in PDF points. */
  const A4Width: real := 595.0
  const A4Height: real := 842.0

  type Pixels = n: int | n > 0 witness 1

  datatype ImageCodec = Png | Jpeg

  /** How a stored file is treated, by its lower-cased extension. */
  datatype FileKind = Image(codec: ImageCodec) | Pdf | Other

  /** The branch a lower-cased extension selects in the merge loop. */
  function KindOfExtension(ext: string): FileKind
  {
    if ext == ".png" then Image(Png)
    else if ext == ".jpeg" || ext == ".jpg" then Image(Jpeg)
    else if ext == ".pdf" then Pdf
    else Other
  }

  /**
   * How the merge loop treats a stored file, by the end of its lower-cased
   * name; `KindOfIsExtname` shows this is the branch that
   * `path.extname(file).toLowerCase()` selects.
   */
  function KindOf(name: string): FileKind
  {
    var low := ToLower(name);
    if HasExtension(low, ".png") then Image(Png)
    else if HasExtension(low, ".jpeg") || HasExtension(low, ".jpg") then Image(Jpeg)
    else if HasExtension(low, ".pdf") then Pdf
    else Other
  }

  /** The encoding of an image file's bytes, whatever its extension says. */
  datatype RasterFormat = PngData | JpegData | OtherRaster

  /** What the libraries find in a stored file. */
  datatype Content =
    | Raster(format: RasterFormat, width: Pixels, height: Pixels)
    | PdfData(pageCount: nat)
    | Unreadable

  datatype StoredFile = StoredFile(name: string, content: Content)

  /** A stored file as the merge loop sees it: the kind its extension gives, and its content. */
  datatype Item = Item(kind: FileKind, content: Content)

  /** Each upload's extension is looked at once, in upload order. */
  function Classify(files: seq<StoredFile>): (items: seq<Item>)
    ensures |items| == |files|
    ensures forall i :: 0 <= i < |files| ==> items[i] == Item(KindOf(files[i].name), files[i].content)
  {
    seq(|files|, i requires 0 <= i < |files| => Item(KindOf(files[i].name), files[i].content))
  }

  /**
   * Whether the embedder chosen by the extension accepts the file: the
   * image pipeline keeps the input format, so `embedPng` needs PNG data and
   * `embedJpg` JPEG data.
   */
  predicate Embeds(codec: ImageCodec, content: Content)
  {
    && content.Raster?
    && (codec == Png ==> content.format == PngData)
    && (codec == Jpeg ==> content.format == JpegData)
  }

  /**
   * A page of the output document, tagged with the position `from` of the
   * upload it came from. An image page has a page size, the point where the
   * image is drawn and the size it is drawn at; a copied page is page
   * `index` of a PDF upload.
   */
  datatype Page =
    | ImagePage(from: nat, width: real, height: real, x: real, y: real, drawWidth: real, drawHeight: real)
    | CopiedPage(from: nat, index: nat)

  datatype Route = Create | Modify

  // ---------------------------------------------------------------------
  // Geometry
  // ---------------------------------------------------------------------

  /**
   * The size an image of `w` by `h` pixels gets when resized with
   * `fit: 'inside'` into the A4 box: as large as possible within it, aspect
   * ratio kept (so it may also be enlarged).
   */
  function FitInside(w: real, h: real): (r: (real, real))
    requires w > 0.0 && h > 0.0
    ensures 0.0 < r.0 <= A4Width && 0.0 < r.1 <= A4Height
    ensures r.0 == A4Width || r.1 == A4Height
    ensures r.0 * h == r.1 * w
  {
    var sw, sh := A4Width / w, A4Height / h;
    var s := if sw <= sh then sw else sh;
    assert w * sw == A4Width && h * sh == A4Height;
    assert h * s <= h * sh && w * s <= w * sw;
    (w * s, h * s)
  }

  /** An A4 page with the image drawn centred on it. */
  predicate Centred(p: Page)
  {
    p.ImagePage? ==>
      && p.width == A4Width && p.height == A4Height
      && 0.0 < p.drawWidth && 0.0 < p.drawHeight
      && 0.0 <= p.x && p.x + p.drawWidth + p.x == p.width
      && 0.0 <= p.y && p.y + p.drawHeight + p.y == p.height
  }

  /** A page exactly the image's size, with the image drawn at the origin. */
  predicate NativeSized(p: Page)
  {
    p.ImagePage? ==>
      && p.x == 0.0 && p.y == 0.0
      && p.width == p.drawWidth && p.height == p.drawHeight
  }

  /** The page the create route adds for an image: A4, image resized to fit and drawn at ((595 - w)/2, (842 - h)/2). */
  function CentredPage(from: nat, w: Pixels, h: Pixels): (p: Page)
    ensures p.ImagePage? && p.from == from && Centred(p)
    ensures p.drawWidth * (h as real) == p.drawHeight * (w as real)
  {
    var size := FitInside(w as real, h as real);
    ImagePage(from, A4Width, A4Height, (A4Width - size.0) / 2.0, (A4Height - size.1) / 2.0, size.0, size.1)
  }

  /** The page the modify route adds for an image: the image's own size, drawn at (0, 0). */
  function NativePage(from: nat, w: Pixels, h: Pixels): (p: Page)
    ensures p.ImagePage? && p.from == from && NativeSized(p)
    ensures p.drawWidth == w as real && p.drawHeight == h as real
  {
    ImagePage(from, w as real, h as real, 0.0, 0.0, w as real, h as real)
  }

  // ---------------------------------------------------------------------
  // The merge as a specification
  // ---------------------------------------------------------------------

  /** Every page of the PDF upload at position `from`, in its original order. */
  function CopiedPages(from: nat, count: nat): (ps: seq<Page>)
    ensures |ps| == count
    ensures forall k :: 0 <= k < count ==> ps[k] == CopiedPage(from, k)
  {
    seq(count, k requires 0 <= k < count => CopiedPage(from, k))
  }

  /**
   * The pages the upload at position `i` adds, or `None` when it fails the
   * whole request: a PDF the library cannot load, on both routes, and an
   * image that cannot be embedded, on the modify route only.
   */
  function FilePages(route: Route, i: nat, f: Item): Option<seq<Page>>
  {
    match f.kind
    case Other => Some([])
    case Pdf => if f.content.PdfData? then Some(CopiedPages(i, f.content.pageCount)) else None
    case Image(codec) =>
      if Embeds(codec, f.content) then
        Some([if route == Create then CentredPage(i, f.content.width, f.content.height)
              else NativePage(i, f.content.width, f.content.height)])
      else if route == Create then Some([])
      else None
  }

  /** The output document's pages after the loop over `files`, or `None` if some upload failed the request. */
  function Merged(route: Route, files: seq<Item>): Option<seq<Page>>
    decreases |files|
  {
    if files == [] then Some([])
    else
      var n := |files| - 1;
      match Merged(route, files[..n])
      case None => None
      case Some(ps) =>
        match FilePages(route, n, files[n])
        case None => None
        case Some(more) => Some(ps + more)
  }

  /** The uploads that do not fail the request on `route`. */
  predicate Acceptable(route: Route, f: Item)
  {
    && (f.kind == Pdf ==> f.content.PdfData?)
    && (route == Modify && f.kind.Image? ==> Embeds(f.kind.codec, f.content))
  }

  /** How many uploads add an image page. */
  function ImagePageCount(files: seq<Item>): nat
    decreases |files|
  {
    if files == [] then 0
    else
      var f := files[|files| - 1];
      ImagePageCount(files[..|files| - 1])
        + (if f.kind.Image? && Embeds(f.kind.codec, f.content) then 1 else 0)
  }

  /** The total page count of the PDF uploads. */
  function PdfPageTotal(files: seq<Item>): nat
    decreases |files|
  {
    if files == [] then 0
    else
      var f := files[|files| - 1];
      PdfPageTotal(files[..|files| - 1])
        + (if f.kind == Pdf && f.content.PdfData? then f.content.pageCount else 0)
  }

  /** The pages of `ps` that came from the upload at position `i`, in order. */
  function PagesFrom(ps: seq<Page>, i: nat): seq<Page>
    decreases |ps|
  {
    if ps == [] then [] else (if ps[0].from == i then [ps[0]] else []) + PagesFrom(ps[1..], i)
  }

  // ---------------------------------------------------------------------
  // Properties of the merge
  // ---------------------------------------------------------------------

  lemma FilePagesFacts(route: Route, i: nat, f: Item)
    ensures FilePages(route, i, f).Some? <==> Acceptable(route, f)
    ensures FilePages(route, i, f).Some? ==>
      forall p :: p in FilePages(route, i, f).value ==> p.from == i
  {
  }

  /** The merge fails exactly when some upload is not acceptable. */
  lemma {:induction false} MergedSucceeds(route: Route, files: seq<Item>)
    ensures Merged(route, files).Some? <==> forall i :: 0 <= i < |files| ==> Acceptable(route, files[i])
    decreases |files|
  {
    if files != [] {
      var n := |files| - 1;
      MergedSucceeds(route, files[..n]);
      FilePagesFacts(route, n, files[n]);
      if forall i :: 0 <= i < |files| ==> Acceptable(route, files[i]) {
        assert forall i :: 0 <= i < n ==> files[..n][i] == files[i];
      } else {
        var j :| 0 <= j < |files| && !Acceptable(route, files[j]);
        if j < n { assert files[..n][j] == files[j]; }
      }
    }
  }

  /** The page count: one page per image that embeds, plus every page of every PDF. */
  lemma {:induction false} MergedPageCount(route: Route, files: seq<Item>)
    requires Merged(route, files).Some?
    ensures |Merged(route, files).value| == ImagePageCount(files) + PdfPageTotal(files)
    decreases |files|
  {
    if files != [] {
      var n := |files| - 1;
      MergedPageCount(route, files[..n]);
    }
  }

  /** Every page comes from one of the uploads, and pages follow upload order. */
  lemma {:induction false} MergedInUploadOrder(route: Route, files: seq<Item>)
    requires Merged(route, files).Some?
    ensures var ps := Merged(route, files).value;
      && (forall p :: 0 <= p < |ps| ==> ps[p].from < |files|)
      && (forall p, q :: 0 <= p < q < |ps| ==> ps[p].from <= ps[q].from)
    decreases |files|
  {
    if files != [] {
      var n := |files| - 1;
      MergedInUploadOrder(route, files[..n]);
      FilePagesFacts(route, n, files[n]);
      var ps := Merged(route, files[..n]).value;
      var more := FilePages(route, n, files[n]).value;
      assert Merged(route, files).value == ps + more;
      assert forall q :: |ps| <= q < |ps + more| ==> (ps + more)[q] in more;
    }
  }

  lemma {:induction false} PagesFromAppend(a: seq<Page>, b: seq<Page>, i: nat)
    ensures PagesFrom(a + b, i) == PagesFrom(a, i) + PagesFrom(b, i)
    decreases |a|
  {
    if a == [] {
      assert a + b == b;
    } else {
      var c := a + b;
      assert c[0] == a[0] && c[1..] == a[1..] + b;
      PagesFromAppend(a[1..], b, i);
      var h := if a[0].from == i then [a[0]] else [];
      assert PagesFrom(c, i) == h + (PagesFrom(a[1..], i) + PagesFrom(b, i));
      assert PagesFrom(a, i) == h + PagesFrom(a[1..], i);
    }
  }

  lemma {:induction false} PagesFromNone(ps: seq<Page>, i: nat)
    requires forall p :: p in ps ==> p.from != i
    ensures PagesFrom(ps, i) == []
    decreases |ps|
  {
    if ps != [] {
      PagesFromNone(ps[1..], i);
    }
  }

  lemma {:induction false} PagesFromAll(ps: seq<Page>, i: nat)
    requires forall p :: p in ps ==> p.from == i
    ensures PagesFrom(ps, i) == ps
    decreases |ps|
  {
    if ps != [] {
      PagesFromAll(ps[1..], i);
    }
  }

  /**
   * What each upload contributes, in the output's order: nothing for an
   * unknown extension, all pages in order for a PDF, and for an image one
   * page (A4 and centred on create, native size at the origin on modify) or,
   * on create, none when it cannot be embedded.
   */
  lemma {:induction false} MergedPagesOfUpload(route: Route, files: seq<Item>, i: nat)
    requires Merged(route, files).Some? && i < |files|
    ensures var got := PagesFrom(Merged(route, files).value, i);
      var f := files[i];
      && (f.kind.Other? ==> got == [])
      && (f.kind.Pdf? ==> f.content.PdfData? && got == CopiedPages(i, f.content.pageCount))
      && (f.kind.Image? && !Embeds(f.kind.codec, f.content) ==> route == Create && got == [])
      && (f.kind.Image? && Embeds(f.kind.codec, f.content) ==>
            && |got| == 1 && got[0].ImagePage?
            && (route == Create ==> got[0] == CentredPage(i, f.content.width, f.content.height))
            && (route == Modify ==> got[0] == NativePage(i, f.content.width, f.content.height)))
    decreases |files|
  {
    var n := |files| - 1;
    var ps := Merged(route, files[..n]).value;
    var more := FilePages(route, n, files[n]).value;
    assert Merged(route, files).value == ps + more;
    PagesFromAppend(ps, more, i);
    FilePagesFacts(route, n, files[n]);
    if i < n {
      MergedPagesOfUpload(route, files[..n], i);
      assert files[..n][i] == files[i];
      PagesFromNone(more, i);
      assert PagesFrom(more, i) == [];
    } else {
      MergedInUploadOrder(route, files[..n]);
      assert forall p :: p in ps ==> p.from != i;
      PagesFromNone(ps, i);
      PagesFromAll(more, i);
    }
  }

  /** Image pages are A4 and centred on create, and exactly the image's size at the origin on modify. */
  lemma {:induction false} MergedGeometry(route: Route, files: seq<Item>)
    requires Merged(route, files).Some?
    ensures forall p :: p in Merged(route, files).value ==>
      (route == Create ==> Centred(p)) && (route == Modify ==> NativeSized(p))
    decreases |files|
  {
    if files != [] {
      var n := |files| - 1;
      MergedGeometry(route, files[..n]);
    }
  }

  /** The kind of a file is what its lower-cased `path.extname` selects. */
  lemma KindOfIsExtname(name: string)
    ensures KindOf(name) == KindOfExtension(ToLower(Extname(name)))
  {
    ExtnameToLower(name);
    KindOfExtensionBySuffix(ToLower(name));
  }

  lemma KindOfExtensionBySuffix(s: string)
    ensures KindOfExtension(Extname(s)) ==
      if HasExtension(s, ".png") then Image(Png)
      else if HasExtension(s, ".jpeg") || HasExtension(s, ".jpg") then Image(Jpeg)
      else if HasExtension(s, ".pdf") then Pdf
      else Other
  {
    ExtnameIsSuffix(s, ".png");
    ExtnameIsSuffix(s, ".jpeg");
    ExtnameIsSuffix(s, ".jpg");
    ExtnameIsSuffix(s, ".pdf");
  }

  /** Case does not matter: `photo.JPG` is treated like `photo.jpg`. */
  lemma KindIgnoresCase(name: string)
    ensures KindOf(ToLower(name)) == KindOf(name)
  {
    ToLowerIdempotent(name);
  }

  // ---------------------------------------------------------------------
  // The merge as it runs
  // ---------------------------------------------------------------------

  /** The document `PDFDocument.create()` starts, grown one page at a time. */
  class OutputDocument {
    var pages: seq<Page>

    constructor ()
      ensures pages == []
    {
      pages := [];
    }

    method AddPage(p: Page)
      modifies this
      ensures pages == old(pages) + [p]
    {
      pages := pages + [p];
    }

    /** `copyPages` of every page index of a loaded PDF, then `addPage` for each copy. */
    method CopyAllPages(from: nat, count: nat)
      modifies this
      ensures pages == old(pages) + CopiedPages(from, count)
    {
      var k := 0;
      while k < count
        invariant 0 <= k <= count
        invariant pages == old(pages) + CopiedPages(from, k)
      {
        assert CopiedPages(from, k + 1) == CopiedPages(from, k) + [CopiedPage(from, k)];
        AddPage(CopiedPage(from, k));
        k := k + 1;
      }
    }
  }

  lemma {:induction false} MergedFailureStays(route: Route, files: seq<Item>, i: nat)
    requires i <= |files| && Merged(route, files[..i]).None?
    ensures Merged(route, files).None?
    decreases |files| - i
  {
    if i < |files| {
      assert files[..i + 1][..i] == files[..i];
      MergedFailureStays(route, files, i + 1);
    } else {
      assert files[..i] == files;
    }
  }

  /** The extension test at the head of the loop body: `path.extname(file).toLowerCase()` against the known extensions. */
  method ExtensionKind(name: string) returns (kind: FileKind)
    ensures kind == KindOf(name)
  {
    KindOfIsExtname(name);
    var ext := ToLower(Extname(name));
    if ext == ".png" {
      kind := Image(Png);
    } else if ext == ".jpeg" || ext == ".jpg" {
      kind := Image(Jpeg);
    } else if ext == ".pdf" {
      kind := Pdf;
    } else {
      kind := Other;
    }
  }

  /** One pass of the loop body: the upload at position `i` either fails the request or adds its pages. */
  method AddUpload(doc: OutputDocument, route: Route, i: nat, f: Item) returns (ok: bool)
    modifies doc
    ensures ok <==> FilePages(route, i, f).Some?
    ensures ok ==> doc.pages == old(doc.pages) + FilePages(route, i, f).value
  {
    match f.kind {
      case Image(codec) =>
        if Embeds(codec, f.content) {
          var page := if route == Create then CentredPage(i, f.content.width, f.content.height)
                      else NativePage(i, f.content.width, f.content.height);
          doc.AddPage(page);
        } else if route == Modify {
          return false;
        }
      case Pdf =>
        if !f.content.PdfData? {
          return false;
        }
        doc.CopyAllPages(i, f.content.pageCount);
      case Other =>
    }
    return true;
  }

  /** The extension test of every upload, in upload order. */
  method ClassifyUploads(files: seq<StoredFile>) returns (items: seq<Item>)
    ensures items == Classify(files)
  {
    items := [];
    var i := 0;
    while i < |files|
      invariant 0 <= i <= |files| && |items| == i
      invariant forall j :: 0 <= j < i ==> items[j] == Item(KindOf(files[j].name), files[j].content)
    {
      var kind := ExtensionKind(files[i].name);
      items := items + [Item(kind, files[i].content)];
      i := i + 1;
    }
    ClassifiedAll(files, items);
  }

  lemma ClassifiedAll(files: seq<StoredFile>, items: seq<Item>)
    requires |items| == |files|
    requires forall j :: 0 <= j < |files| ==> items[j] == Item(KindOf(files[j].name), files[j].content)
    ensures items == Classify(files)
  {
  }

  /**
   * The loop over the classified uploads, in upload order. It answers
   * whether the request survives; if it does, the document has gained
   * exactly the pages the specification gives.
   */
  method MergeItems(doc: OutputDocument, route: Route, items: seq<Item>) returns (ok: bool)
    modifies doc
    ensures ok <==> Merged(route, items).Some?
    ensures ok ==> doc.pages == old(doc.pages) + Merged(route, items).value
  {
    var i := 0;
    while i < |items|
      invariant 0 <= i <= |items|
      invariant Merged(route, items[..i]).Some?
      invariant doc.pages == old(doc.pages) + Merged(route, items[..i]).value
    {
      assert items[..i + 1][..i] == items[..i];
      var added := AddUpload(doc, route, i, items[i]);
      if !added {
        MergedFailureStays(route, items, i + 1);
        return false;
      }
      i := i + 1;
    }
    assert items[..i] == items;
    return true;
  }

  /** The merge loop of both routes: each upload's lower-cased extension decides what it adds. */
  method MergeUploads(doc: OutputDocument, route: Route, files: seq<StoredFile>) returns (ok: bool)
    modifies doc
    ensures ok <==> Merged(route, Classify(files)).Some?
    ensures ok ==> doc.pages == old(doc.pages) + Merged(route, Classify(files)).value
  {
    var items := ClassifyUploads(files);
    ok := MergeItems(doc, route, items);
  }
}
