/** The cover image of an uploaded manual: the first page of the PDF is
    rendered to PNG (the renderer is a parameter) and saved in the media
    directory under a name derived from the PDF's file name; the call
    returns the media URL of that image. */
module Covers {
  import opened Bytes

  /** A rendered page. */
  datatype Image = Image(png: seq<byte>)

  /** The media directory after the call and the returned URL. */
  datatype Cover = Cover(media: map<string, Image>, url: string)

  const MediaUrlPrefix: string := "/media/"
  const PngExtension: string := ".png"

  /** The last path component: what follows the last `/` (POSIX `basename`). */
  function Basename(path: string): (b: string)
    ensures '/' !in b
    ensures |b| <= |path| && b == path[|path| - |b|..]
    ensures |b| < |path| ==> path[|path| - |b| - 1] == '/'
    decreases |path|
  {
    if path == [] then []
    else if path[|path| - 1] == '/' then []
    else
      var n := |path|;
      var b := Basename(path[..n - 1]);
      assert b == path[n - 1 - |b|..n - 1];
      assert path[n - 1 - |b|..] == path[n - 1 - |b|..n - 1] + [path[n - 1]];
      assert |b| < n - 1 ==> path[n - 2 - |b|] == path[..n - 1][n - 2 - |b|];
      b + [path[n - 1]]
  }

  /** A string without its last four characters (`s[:-4]`): empty when it has
      four characters or fewer. */
  function DropLastFour(s: string): string
  {
    if |s| >= 4 then s[..|s| - 4] else []
  }

  /** The name of the saved cover: the PDF's base name without its last four
      characters (its extension), with `.png` appended. */
  function OutputFilename(inputFile: string): (name: string)
    ensures '/' !in name
    ensures |name| >= |PngExtension| && name[|name| - |PngExtension|..] == PngExtension
  {
    var b := Basename(inputFile);
    var stem := DropLastFour(b);
    var name := stem + PngExtension;
    assert name[|stem|..] == PngExtension;
    name
  }

  /** `create_url`: save the rendered first page under the derived name and
      return its media URL; nothing else in the media directory changes. */
  function CreateUrl(inputFile: string, media: map<string, Image>, firstPage: Image): (r: Cover)
    ensures |r.url| > |MediaUrlPrefix| && r.url[..|MediaUrlPrefix|] == MediaUrlPrefix
    ensures var saved := r.url[|MediaUrlPrefix|..];
      && saved == OutputFilename(inputFile)
      && '/' !in saved
      && saved in r.media && r.media[saved] == firstPage
      && forall k :: k != saved ==> (k in r.media <==> k in media) && (k in media ==> r.media[k] == media[k])
  {
    var name := OutputFilename(inputFile);
    var url := MediaUrlPrefix + name;
    assert url[|MediaUrlPrefix|..] == name;
    Cover(media[name := firstPage], url)
  }

  /** A PDF at `dir/stem.pdf` (any four-character extension) gets the cover
      `stem.png`, whatever the directory. */
  lemma CoverOfPdfPath(dir: string, stem: string, extension: string)
    requires '/' !in stem && '/' !in extension && |extension| == 4
    ensures OutputFilename(dir + "/" + stem + extension) == stem + PngExtension
  {
    var path := dir + "/" + stem + extension;
    var b := Basename(path);
    var tail := stem + extension;
    assert path[|path| - |tail|..] == tail;
    assert path[|path| - |tail| - 1] == '/';
    assert b == tail;
    assert DropLastFour(b) == stem;
  }

  /** A PDF given by its bare name `stem.pdf`, with no directory part, gets
      the cover `stem.png`. */
  lemma CoverOfBareName(stem: string, extension: string)
    requires '/' !in stem && '/' !in extension && |extension| == 4
    ensures OutputFilename(stem + extension) == stem + PngExtension
  {
  }

  /** A base name of four characters or fewer leaves an empty stem. */
  lemma ShortNameCover(inputFile: string)
    requires |Basename(inputFile)| <= 4
    ensures OutputFilename(inputFile) == PngExtension
  {
  }
}
