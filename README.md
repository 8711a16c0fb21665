# pdf_to_epub chapter builder, in Dafny

The converter turns a PDF into the staged parts of an EPUB. Its computing core
is two loops of `main`. The first asks the PDF document for the text of each
page `0 .. pages-1` and collects the texts, in page order, as the chapters. The
second builds one HTML document per chapter: `html > head > title` with the title
`Chapter<i+1>`, and `html > body` with one `<p>` holding the chapter text,
then one `<img src="images/<file name>" alt="Image">` for every image file listed
in the image directory, in listing order. Each document is saved as
`temp/OEBPS/chapter_<i>.html`, and that path is recorded whether or not the save
succeeded.

Modules:

- `Decimal` (decimal.dfy): `std::to_string` on non-negative integers as
  `NatToString`. `StringToNat` reads a numeral back; the round trip proves that
  distinct numbers give distinct numerals.
- `Paths` (paths.dfy): `std::filesystem::path::filename()` as `FileName`, the
  part of a path after its last `/`.
- `Html` (html.dfy): the pugixml tree that the builder creates. An `Element`
  has a name, ordered attributes, text and ordered children. `AttrValue` looks
  an attribute up; it is used only to state properties of the tree.
- `CStrings` (cstr.dfy): every string reaches pugixml through `c_str()`, a
  NUL-terminated pointer. `CStr` is the part of a string that pugixml then sees:
  everything before the first NUL character.
- `Chapters` (chapters.dfy): the title, path and image-reference strings. It
  holds `ChapterDoc`, the reference definition of a chapter document, and the
  lemmas about it. The loops are methods: `CollectPageTexts` (page loop),
  `BuildChapterDoc` (one document, with the inner image loop), `BuildChapters`
  (chapter loop) and `ConvertPages` (both loops in order).

External collaborators are parameters. The PDF document is `pages: int` plus
`pageText: int -> string`. The directory listing is `imagePaths: seq<string>`,
in whatever order the OS gives it. The outcome of `save_file` is
`saveFile: string -> bool`: whether writing to a given path succeeds.

Where the code differs from what an EPUB chapter is usually expected to look
like, the model follows the code:

- The title has no space between "Chapter" and the number (`Chapter1`). The
  comment at pdf_to_epub.cpp:62-65 writes `Chapter N`, but line 72 adds no space.
- The chapter text goes into the tree unescaped. Escaping happens only when
  pugixml serializes the tree, and serialization is not modelled. Because the
  text is passed with `c_str()` (line 75), pugixml stores only the part before
  the first NUL character. A text without NUL is stored whole. The same cut
  applies to the title (line 72) and the `src` value (line 80); a title never
  contains a NUL.
- Chapter paths are numbered from 0 while titles are numbered from 1.
- Duplicate image file names are not detected. The code has no such check.

## Model

| member | source | states |
|---|---|---|
| `Decimal.NatToString` | pdf_to_epub.cpp:72 | the decimal numeral of a number is non-empty and all digits; it starts with `0` exactly when the number is 0 (no leading zeros); it is one digit exactly when the number is below 10 |
| `Decimal.StringToNatOfNatToString` | pdf_to_epub.cpp:84-85 | reading the numeral back as a decimal number gives the original number |
| `Decimal.NatToStringInjective` | pdf_to_epub.cpp:84-85 | distinct numbers give distinct numerals |
| `Paths.FileName` | pdf_to_epub.cpp:78 | the file name is a suffix of the path and contains no `/`; if it is shorter than the path, a `/` comes right before it |
| `Paths.FileNameUnique` | pdf_to_epub.cpp:78 | the suffix described above is unique, so `FileName` is exactly the part after the last `/` |
| `Paths.FileNameOfPlain` | pdf_to_epub.cpp:78 | a path without `/` is its own file name |
| `Paths.FileNameOfJoin` | pdf_to_epub.cpp:54-56 | a listing entry `dir/name` has the file name `name` |
| `CStrings.CStr` | pdf_to_epub.cpp:75 | what pugixml receives from `c_str()` is a prefix of the string that holds no NUL; if it is shorter than the string, a NUL comes right after it |
| `CStrings.CStrOfNulFree` | pdf_to_epub.cpp:75 | a string without NUL reaches pugixml whole |
| `CStrings.CStrCutsAtFirstNul` | pdf_to_epub.cpp:75 | a string whose first NUL is at position `k` reaches pugixml as its first `k` characters |
| `CStrings.CStrOfNulFreeConcat` | pdf_to_epub.cpp:80 | a concatenation of two NUL-free strings reaches pugixml whole |
| `Chapters.CollectPageTexts` | pdf_to_epub.cpp:43-50 | gives `pages` texts (none when `pages` is negative); entry `i` is the text of page `i`, so page order is kept |
| `Chapters.BuildChapterDoc` | pdf_to_epub.cpp:68-82 | the node-by-node build, with its loop over the image list and every string passed through `c_str()`, gives exactly `ChapterDoc(i, text, imagePaths)`, the reference document whose shape `ChapterDocShape` states |
| `Chapters.BuildImageRef` | pdf_to_epub.cpp:79-81 | appending an `img` node and then its `src` and `alt` attributes gives exactly `ImageRef` of the listed path, whose shape `ImageRefShape` states |
| `Chapters.BuildChapters` | pdf_to_epub.cpp:67-91 | gives one document and one path per chapter, in chapter order; document `i` is `ChapterDoc(i, chapters[i], imagePaths)` and path `i` is `HtmlPath(i)`; the paths are pairwise distinct; every document has the same image references; a path is recorded even when writing to it fails; the failed saves are listed in increasing order, and chapter `i` is listed exactly when writing to path `i` failed |
| `Chapters.ConvertPages` | pdf_to_epub.cpp:43-91 | the page loop then the chapter loop give `pages` documents and paths (none when `pages` is negative); document `i` is built from the text of page `i` and path `i` is `HtmlPath(i)`; the paths are pairwise distinct; every document has the same image references; the failed saves are listed in increasing order, each once, and exactly those |
| `Chapters.TitleShape` | pdf_to_epub.cpp:72 | a title, `TitleText(i)`, is `Chapter` then, with no space, the digits of a numeral that starts with 1-9 and reads as `i + 1` |
| `Chapters.TitleThroughCStr` | pdf_to_epub.cpp:72 | a title holds no NUL, so `c_str()` passes it to pugixml whole |
| `Chapters.TitleInjective` | pdf_to_epub.cpp:72 | distinct chapters have distinct titles |
| `Chapters.HtmlPathShape` | pdf_to_epub.cpp:84-85 | a chapter path, `HtmlPath(i)`, is `temp/OEBPS/chapter_`, then the digits of a numeral that reads as `i`, then `.html` |
| `Chapters.HtmlPathInjective` | pdf_to_epub.cpp:84-85 | distinct chapter indices give distinct paths |
| `Chapters.HtmlPathsDistinct` | pdf_to_epub.cpp:84-90 | a list whose entry `i` is the path of chapter `i` names no file twice |
| `Chapters.ImageRefs` | pdf_to_epub.cpp:77-82 | the inner loop appends exactly one `img` per listed image |
| `Chapters.ImageRefsPrefix` | pdf_to_epub.cpp:77-82 | one more pass of the inner loop appends the reference for the next listed image to those already built |
| `Chapters.ImageRefsAt` | pdf_to_epub.cpp:77-82 | reference `k` is the one for listed image `k`, so listing order is kept |
| `Chapters.ImageSrcOfNulFree` | pdf_to_epub.cpp:78-80 | for a listed path without NUL, the `src` value `ImageSrc` is exactly `images/` plus its file name |
| `Chapters.ImageRefShape` | pdf_to_epub.cpp:79-81 | an image reference, `ImageRef`, is an `img` with no children; its `src` attribute is `ImageSrc` of the listed path and its `alt` attribute is `Image` |
| `Chapters.ChapterDocShape` | pdf_to_epub.cpp:68-82 | a chapter document, `ChapterDoc(i, text, imagePaths)`, is `html` with two children. The first is `head`, holding only the title element with text `TitleText(i)`. The second is `body`, with one child more than there are listed images. Its first child is a `p` holding the text up to its first NUL; a text without NUL, the empty text too, is held whole. The image references follow in listing order and depend on neither the index nor the text |
| `Chapters.ChapterImages` | pdf_to_epub.cpp:77-82 | the images of every chapter document are `ImageRefs(imagePaths)`, whatever the chapter's index and text |
| `Chapters.ChaptersShareImages` | pdf_to_epub.cpp:67-82 | in a list of chapter documents built from one image list, every document has the same image references |
| `Chapters.ExampleTitles` | pdf_to_epub.cpp:72 | the first three chapters are titled `Chapter1`, `Chapter2`, `Chapter3` |
| `Chapters.ExamplePaths` | pdf_to_epub.cpp:84-85 | chapters 0 and 2 are saved as `temp/OEBPS/chapter_0.html` and `temp/OEBPS/chapter_2.html` |
| `Chapters.ExampleImageSrc` | pdf_to_epub.cpp:78-80 | an image listed as `temp/OEBPS/images/<name>`, with no `/` and no NUL in `name`, is referenced as `images/<name>` |
| `Chapters.ExampleEmptyPage` | pdf_to_epub.cpp:73-82 | an empty page gives a body of an empty `p` followed by one `img` for each of two listed images, in listing order |

## Left out

- Argument-count check, `printf` messages and exit codes (pdf_to_epub.cpp:17-20, 26-27, 88): command-line plumbing. A failed save is reported only as the index list `saveFailed`.
- Loading the PDF with poppler, creating pages, and converting text to Latin-1 (pdf_to_epub.cpp:23, 44-45): a foreign library. The document is the parameters `pages` and `pageText`, and texts are taken as given.
- Creating the staging directories and running `pdfimages` through `system` (pdf_to_epub.cpp:31-37): filesystem and process I/O. The cast on line 37 passes the address of a `std::string` object as a C string. That is undefined behaviour and is not modelled.
- Listing the image directory and catching its errors (pdf_to_epub.cpp:53-60): the OS decides the order, so the list is the input `imagePaths`. A failed listing is the same as a shorter or empty list.
- Saving with pugixml, XML serialization and the escaping done there (pdf_to_epub.cpp:87): foreign library I/O. Only the built tree is modelled. Whether a save succeeds is the parameter `saveFile`, a function of the target path; a failure that depends on the document's content is not distinguished.
- The EPUB container descriptor, package document, navigation document, ZIP packaging and temp cleanup (pdf_to_epub.cpp:93-103): the source has only comments here and no code to model.
- `delete page` and `delete document` (pdf_to_epub.cpp:49, 105): memory management.
- BuildChapters: the loop counter is a `size_t` and is modelled as unbounded. A wrap-around of `i + 1` would need 2^64 chapters, which cannot happen in memory.
- The xml_document wrapper around the `html` element is not modelled. A chapter document is its `html` root element.
