/** The chapter builder of the PDF-to-EPUB converter: the page texts are
    collected in page order, and each becomes an HTML document
    `html > (head > title, body > (p, img*))` saved as
    `temp/OEBPS/chapter_<i>.html`, whose body references every extracted image. */
module Chapters {
  import opened Decimal
  import opened Paths
  import opened Html
  import opened CStrings

  const TitlePrefix: string := "Chapter"
  const ChapterPathPrefix: string := "temp/OEBPS/chapter_"
  const ChapterPathSuffix: string := ".html"
  const ImageDir: string := "images/"
  const ImageAlt: string := "Image"

  /** Title of the chapter at 0-based index `i`: numbered from 1, no space. */
  function TitleText(i: nat): (title: string) {
    TitlePrefix + NatToString(i + 1)
  }

  /** Where the chapter at 0-based index `i` is saved: numbered from 0. */
  function HtmlPath(i: nat): (path: string) {
    ChapterPathPrefix + NatToString(i) + ChapterPathSuffix
  }

  /** The `src` of the reference to the image found at `imagePath`, as handed over by `c_str()`. */
  function ImageSrc(imagePath: string): (src: string) {
    CStr(ImageDir + FileName(imagePath))
  }

  function ImageRef(imagePath: string): (img: Element) {
    Element("img", [Attr("src", ImageSrc(imagePath)), Attr("alt", ImageAlt)], "", [])
  }

  /** One `img` per listed image, in listing order, as the inner loop appends them. */
  function ImageRefs(imagePaths: seq<string>): (refs: seq<Element>)
    ensures |refs| == |imagePaths|
  {
    if imagePaths == [] then []
    else ImageRefs(imagePaths[..|imagePaths| - 1]) + [ImageRef(imagePaths[|imagePaths| - 1])]
  }

  /** The paragraph for a chapter text, which reaches pugixml through `c_str()`. */
  function Paragraph(text: string): (p: Element) {
    Element("p", [], CStr(text), [])
  }

  /** The document built for the chapter at index `i` with text `text`. A title
      has no NUL, so it is held whole (`TitleThroughCStr`). */
  function ChapterDoc(i: nat, text: string, imagePaths: seq<string>): (doc: Element) {
    Element("html", [], "", [
      Element("head", [], "", [Element("title", [], TitleText(i), [])]),
      Element("body", [], "", [Paragraph(text)] + ImageRefs(imagePaths))
    ])
  }

  /** The image references of a chapter document: the body's children after its paragraph. */
  function ImagesOf(doc: Element): (imgs: seq<Element>) {
    if |doc.children| >= 2 && |doc.children[1].children| >= 1 then doc.children[1].children[1..]
    else []
  }

  // ---------------------------------------------------------------------------
  // Properties of the documents and names

  /** A title is "Chapter" directly followed by the decimal numeral of `i + 1`. */
  lemma TitleShape(i: nat)
    ensures |TitleText(i)| >= 8
    ensures TitleText(i)[..7] == "Chapter"
    ensures '1' <= TitleText(i)[7] <= '9'
    ensures AllDigits(TitleText(i)[7..])
    ensures StringToNat(TitleText(i)[7..]) == i + 1
  {
    var t := TitleText(i);
    assert t[7..] == NatToString(i + 1);
    StringToNatOfNatToString(i + 1);
  }

  /** A title holds no NUL, so `c_str()` hands all of it to pugixml. */
  lemma TitleThroughCStr(i: nat)
    ensures CStr(TitleText(i)) == TitleText(i)
  {
    var t := TitleText(i);
    TitleShape(i);
    forall k | 0 <= k < |t|
      ensures t[k] != Nul
    {
      if k >= 7 {
        assert t[k] == t[7..][k - 7];
      } else {
        assert t[k] == t[..7][k];
      }
    }
    CStrOfNulFree(t);
  }

  /** Distinct chapters have distinct titles. */
  lemma TitleInjective(i: nat, j: nat)
    requires TitleText(i) == TitleText(j)
    ensures i == j
  {
    TitleShape(i);
    TitleShape(j);
  }

  /** A chapter path is the fixed prefix, the numeral of `i`, and ".html". */
  lemma HtmlPathShape(i: nat)
    ensures |HtmlPath(i)| >= |ChapterPathPrefix| + 1 + |ChapterPathSuffix|
    ensures HtmlPath(i)[..|ChapterPathPrefix|] == "temp/OEBPS/chapter_"
    ensures HtmlPath(i)[|HtmlPath(i)| - |ChapterPathSuffix|..] == ".html"
    ensures AllDigits(HtmlPath(i)[|ChapterPathPrefix|..|HtmlPath(i)| - |ChapterPathSuffix|])
    ensures StringToNat(HtmlPath(i)[|ChapterPathPrefix|..|HtmlPath(i)| - |ChapterPathSuffix|]) == i
  {
    var p := HtmlPath(i);
    assert p[|ChapterPathPrefix|..|p| - |ChapterPathSuffix|] == NatToString(i);
    StringToNatOfNatToString(i);
  }

  /** Distinct chapter indices are saved under distinct paths. */
  lemma HtmlPathInjective(i: nat, j: nat)
    requires HtmlPath(i) == HtmlPath(j)
    ensures i == j
  {
    HtmlPathShape(i);
    HtmlPathShape(j);
  }

  /** The k-th image reference is the one for the k-th listed image. */
  lemma {:induction false} ImageRefsAt(imagePaths: seq<string>, k: nat)
    requires k < |imagePaths|
    ensures |ImageRefs(imagePaths)| == |imagePaths|
    ensures ImageRefs(imagePaths)[k] == ImageRef(imagePaths[k])
  {
    var init := imagePaths[..|imagePaths| - 1];
    var refs := ImageRefs(init);
    assert ImageRefs(imagePaths) == refs + [ImageRef(imagePaths[|imagePaths| - 1])];
    if k < |init| {
      ImageRefsAt(init, k);
      assert imagePaths[k] == init[k];
      assert ImageRefs(imagePaths)[k] == refs[k];
    }
  }

  /** Extending the listed prefix by one image appends that image's reference. */
  lemma ImageRefsPrefix(imagePaths: seq<string>, k: nat)
    requires k < |imagePaths|
    ensures ImageRefs(imagePaths[..k + 1]) == ImageRefs(imagePaths[..k]) + [ImageRef(imagePaths[k])]
  {
    assert imagePaths[..k + 1][..k] == imagePaths[..k];
  }

  /** The file name of a path without NUL has none either. */
  lemma FileNameNulFree(imagePath: string)
    requires NulFree(imagePath)
    ensures NulFree(FileName(imagePath))
  {
    var name := FileName(imagePath);
    forall k | 0 <= k < |name|
      ensures name[k] != Nul
    {
      assert name[k] == imagePath[|imagePath| - |name| + k];
    }
  }

  lemma ImageDirThroughCStr(name: string)
    requires NulFree(name)
    ensures CStr(ImageDir + name) == ImageDir + name
  {
    CStrOfNulFreeConcat(ImageDir, name);
  }

  /** A listed path without NUL is referenced as "images/" plus its file name, uncut. */
  lemma ImageSrcOfNulFree(imagePath: string)
    requires NulFree(imagePath)
    ensures ImageSrc(imagePath) == ImageDir + FileName(imagePath)
  {
    FileNameNulFree(imagePath);
    var name := FileName(imagePath);
    ImageDirThroughCStr(name);
  }

  /** An image reference is an `img` whose `src` is `ImageSrc` and whose `alt` is "Image". */
  lemma ImageRefShape(imagePath: string)
    ensures ImageRef(imagePath).name == "img" && ImageRef(imagePath).children == []
    ensures AttrValue(ImageRef(imagePath).attrs, "src") == Some(ImageSrc(imagePath))
    ensures AttrValue(ImageRef(imagePath).attrs, "alt") == Some("Image")
  {
    var attrs := ImageRef(imagePath).attrs;
    assert FirstAttr(attrs, "src") == 0;
    assert attrs[1..] == [Attr("alt", ImageAlt)];
    assert FirstAttr(attrs, "alt") == 1;
  }

  /** The shape of every chapter document: the head holds the title only; the
      body holds one paragraph with the text up to its first NUL (all of it
      when it has none), then one `img` per listed image in listing order,
      whatever the chapter's index or text. */
  lemma ChapterDocShape(i: nat, text: string, imagePaths: seq<string>)
    ensures ChapterDoc(i, text, imagePaths).name == "html"
    ensures |ChapterDoc(i, text, imagePaths).children| == 2
    ensures ChapterDoc(i, text, imagePaths).children[0].name == "head"
    ensures ChapterDoc(i, text, imagePaths).children[0].children == [Element("title", [], TitleText(i), [])]
    ensures ChapterDoc(i, text, imagePaths).children[1].name == "body"
    ensures |ChapterDoc(i, text, imagePaths).children[1].children| == 1 + |imagePaths|
    ensures ChapterDoc(i, text, imagePaths).children[1].children[0] == Element("p", [], CStr(text), [])
    ensures NulFree(text) ==> ChapterDoc(i, text, imagePaths).children[1].children[0].text == text
    ensures ImagesOf(ChapterDoc(i, text, imagePaths)) == ImageRefs(imagePaths)
    ensures forall k :: 0 <= k < |imagePaths| ==> ImagesOf(ChapterDoc(i, text, imagePaths))[k] == ImageRef(imagePaths[k])
  {
    if NulFree(text) {
      CStrOfNulFree(text);
    }
    if imagePaths != [] {
      ImageRefsAt(imagePaths, 0);
    }
    forall k | 0 <= k < |imagePaths|
      ensures ImageRefs(imagePaths)[k] == ImageRef(imagePaths[k])
    {
      ImageRefsAt(imagePaths, k);
    }
  }

  /** Every chapter document references the same images, whatever its index or text. */
  lemma ChapterImages(i: nat, text: string, imagePaths: seq<string>)
    ensures ImagesOf(ChapterDoc(i, text, imagePaths)) == ImageRefs(imagePaths)
  {
  }

  /** A list of chapter paths in chapter order names no file twice. */
  lemma HtmlPathsDistinct(htmlPaths: seq<string>)
    requires forall i :: 0 <= i < |htmlPaths| ==> htmlPaths[i] == HtmlPath(i)
    ensures forall i, j :: 0 <= i < j < |htmlPaths| ==> htmlPaths[i] != htmlPaths[j]
  {
    forall i, j | 0 <= i < j < |htmlPaths|
      ensures htmlPaths[i] != htmlPaths[j]
    {
      if htmlPaths[i] == htmlPaths[j] {
        HtmlPathInjective(i, j);
      }
    }
  }

  /** Chapter documents built from the same image list all reference the same images. */
  lemma ChaptersShareImages(docs: seq<Element>, chapters: seq<string>, imagePaths: seq<string>)
    requires |docs| == |chapters|
    requires forall i :: 0 <= i < |chapters| ==> docs[i] == ChapterDoc(i, chapters[i], imagePaths)
    ensures forall i :: 0 <= i < |docs| ==> ImagesOf(docs[i]) == ImageRefs(imagePaths)
  {
    forall i | 0 <= i < |docs|
      ensures ImagesOf(docs[i]) == ImageRefs(imagePaths)
    {
      ChapterImages(i, chapters[i], imagePaths);
    }
  }

  // ---------------------------------------------------------------------------
  // The two loops of the converter

  /** Asks the document for the text of pages `0 .. pages - 1`, in order. */
  method CollectPageTexts(pages: int, pageText: int -> string) returns (chapters: seq<string>)
    ensures |chapters| == if pages < 0 then 0 else pages
    ensures forall i :: 0 <= i < |chapters| ==> chapters[i] == pageText(i)
  {
    chapters := [];
    var i := 0;
    while i < pages
      invariant 0 <= i && (pages >= 0 ==> i <= pages) && (pages < 0 ==> i == 0)
      invariant |chapters| == i
      invariant forall k :: 0 <= k < i ==> chapters[k] == pageText(k)
    {
      chapters := chapters + [pageText(i)];
      i := i + 1;
    }
  }

  /** Appends an `img` node, then its `src` and `alt` attributes, in that order. */
  method BuildImageRef(imagePath: string) returns (img: Element)
    ensures img == ImageRef(imagePath)
  {
    img := Element("img", [], "", []);
    img := img.(attrs := img.attrs + [Attr("src", CStr(ImageDir + FileName(imagePath)))]);
    img := img.(attrs := img.attrs + [Attr("alt", ImageAlt)]);
    assert img.attrs == [Attr("src", ImageSrc(imagePath)), Attr("alt", ImageAlt)];
  }

  /** Builds one chapter document node by node, appending an `img` per listed image. */
  method BuildChapterDoc(i: nat, text: string, imagePaths: seq<string>) returns (doc: Element)
    ensures doc == ChapterDoc(i, text, imagePaths)
  {
    var title := Element("title", [], CStr(TitleText(i)), []);
    TitleThroughCStr(i);
    var head := Element("head", [], "", [title]);
    var p := Element("p", [], CStr(text), []);
    var bodyChildren := [p];
    ghost var imgs: seq<Element> := [];
    for k := 0 to |imagePaths|
      invariant imgs == ImageRefs(imagePaths[..k])
      invariant bodyChildren == [p] + imgs
    {
      var img := BuildImageRef(imagePaths[k]);
      ImageRefsPrefix(imagePaths, k);
      bodyChildren := bodyChildren + [img];
      imgs := imgs + [img];
    }
    assert imagePaths[..|imagePaths|] == imagePaths;
    doc := Element("html", [], "", [head, Element("body", [], "", bodyChildren)]);
  }

  /** Builds and saves a document per chapter. `saveFile(path)` is whether
      writing to `path` succeeds. A path is recorded even when that write
      fails; `saveFailed` lists, in order, the chapters whose save failed. */
  method BuildChapters(chapters: seq<string>, imagePaths: seq<string>, saveFile: string -> bool)
    returns (docs: seq<Element>, htmlPaths: seq<string>, saveFailed: seq<nat>)
    ensures |docs| == |chapters| && |htmlPaths| == |chapters|
    ensures forall i :: 0 <= i < |chapters| ==> docs[i] == ChapterDoc(i, chapters[i], imagePaths)
    ensures forall i :: 0 <= i < |chapters| ==> htmlPaths[i] == HtmlPath(i)
    ensures forall i, j :: 0 <= i < j < |htmlPaths| ==> htmlPaths[i] != htmlPaths[j]
    ensures forall i :: 0 <= i < |docs| ==> ImagesOf(docs[i]) == ImageRefs(imagePaths)
    ensures forall k, l :: 0 <= k < l < |saveFailed| ==> saveFailed[k] < saveFailed[l]
    ensures forall k :: 0 <= k < |saveFailed| ==> saveFailed[k] < |chapters|
    ensures forall i :: 0 <= i < |chapters| ==> (i in saveFailed <==> !saveFile(htmlPaths[i]))
  {
    docs, htmlPaths, saveFailed := [], [], [];
    for i := 0 to |chapters|
      invariant |docs| == i && |htmlPaths| == i
      invariant forall k :: 0 <= k < i ==> docs[k] == ChapterDoc(k, chapters[k], imagePaths)
      invariant forall k :: 0 <= k < i ==> htmlPaths[k] == HtmlPath(k)
      invariant forall k, l :: 0 <= k < l < |saveFailed| ==> saveFailed[k] < saveFailed[l]
      invariant forall k :: 0 <= k < |saveFailed| ==> saveFailed[k] < i
      invariant forall k :: 0 <= k < i ==> (k in saveFailed <==> !saveFile(htmlPaths[k]))
    {
      var doc := BuildChapterDoc(i, chapters[i], imagePaths);
      var htmlPath := HtmlPath(i);
      if !saveFile(htmlPath) {
        saveFailed := saveFailed + [i];
      }
      docs := docs + [doc];
      htmlPaths := htmlPaths + [htmlPath];
    }
    HtmlPathsDistinct(htmlPaths);
    ChaptersShareImages(docs, chapters, imagePaths);
  }

  /** The converter's core in order: collect the page texts, then build and save one chapter per page. */
  method ConvertPages(pages: int, pageText: int -> string, imagePaths: seq<string>, saveFile: string -> bool)
    returns (docs: seq<Element>, htmlPaths: seq<string>, saveFailed: seq<nat>)
    ensures |docs| == (if pages < 0 then 0 else pages) && |htmlPaths| == |docs|
    ensures forall i :: 0 <= i < |docs| ==> docs[i] == ChapterDoc(i, pageText(i), imagePaths)
    ensures forall i :: 0 <= i < |htmlPaths| ==> htmlPaths[i] == HtmlPath(i)
    ensures forall i, j :: 0 <= i < j < |htmlPaths| ==> htmlPaths[i] != htmlPaths[j]
    ensures forall i :: 0 <= i < |docs| ==> ImagesOf(docs[i]) == ImageRefs(imagePaths)
    ensures forall k, l :: 0 <= k < l < |saveFailed| ==> saveFailed[k] < saveFailed[l]
    ensures forall k :: 0 <= k < |saveFailed| ==> saveFailed[k] < |docs|
    ensures forall i :: 0 <= i < |docs| ==> (i in saveFailed <==> !saveFile(htmlPaths[i]))
  {
    var chapters := CollectPageTexts(pages, pageText);
    docs, htmlPaths, saveFailed := BuildChapters(chapters, imagePaths, saveFile);
  }

  // ---------------------------------------------------------------------------
  // A worked example: pages "Hello", "" and "World" with two extracted images

  lemma ExampleTitles()
    ensures TitleText(0) == "Chapter1" && TitleText(1) == "Chapter2" && TitleText(2) == "Chapter3"
  {
  }

  lemma ExamplePaths()
    ensures HtmlPath(0) == "temp/OEBPS/chapter_0.html" && HtmlPath(2) == "temp/OEBPS/chapter_2.html"
  {
  }

  lemma ExampleImageSrc(name: string)
    requires forall k :: 0 <= k < |name| ==> name[k] != Separator && name[k] != Nul
    ensures ImageSrc("temp/OEBPS/images/" + name) == "images/" + name
  {
    FileNameOfJoin("temp/OEBPS/images", name);
    assert "temp/OEBPS/images" + [Separator] + name == "temp/OEBPS/images/" + name;
    var src := ImageDir + name;
    forall k | 0 <= k < |src|
      ensures src[k] != Nul
    {
      if k >= |ImageDir| {
        assert src[k] == name[k - |ImageDir|];
      }
    }
    CStrOfNulFree(src);
  }

  /** An empty page still yields a paragraph, followed by a reference to each of two images listed in the image directory. */
  lemma ExampleEmptyPage(i: nat, a: string, b: string)
    requires forall k :: 0 <= k < |a| ==> a[k] != Separator && a[k] != Nul
    requires forall k :: 0 <= k < |b| ==> b[k] != Separator && b[k] != Nul
    ensures ChapterDoc(i, "", ["temp/OEBPS/images/" + a, "temp/OEBPS/images/" + b]).children[1].children
         == [Element("p", [], "", []),
             Element("img", [Attr("src", "images/" + a), Attr("alt", "Image")], "", []),
             Element("img", [Attr("src", "images/" + b), Attr("alt", "Image")], "", [])]
  {
    ExampleImageSrc(a);
    ExampleImageSrc(b);
    var paths := ["temp/OEBPS/images/" + a, "temp/OEBPS/images/" + b];
    assert paths[..1] == [paths[0]];
    assert paths[..1][..0] == [];
    assert ImageRefs(paths[..1]) == [ImageRef(paths[0])];
    assert ImageRefs(paths) == [ImageRef(paths[0]), ImageRef(paths[1])];
  }
}
