/**
 * Which directory entries the sprite generator treats as source images:
 * a recognised extension, compared case-insensitively, and not the
 * generator's own output file.
 */
module ImageFilter {

  /** The extensions a source image may carry, all lower case. */
  const ImageFileExtensions: seq<string> := [".png", ".jpg", ".tiff", ".gif", ".bmp"]

  /** The composite image the generator writes into every processed directory. */
  const SpriteFileName: string := "sprite.png"

  /** ASCII lower-casing of one character; every other character is kept. */
  function LowerChar(c: char): char
  {
    if 'A' <= c <= 'Z' then (c as int - 'A' as int + 'a' as int) as char else c
  }

  /** Lower-cases a whole string, character by character. */
  function ToLower(s: string): (r: string)
    ensures |r| == |s|
    ensures forall k :: 0 <= k < |s| ==> r[k] == LowerChar(s[k])
  {
    if s == [] then [] else [LowerChar(s[0])] + ToLower(s[1..])
  }

  /** Index of the last '.' in `s`, or -1 when there is none. */
  function LastDot(s: string): (r: int)
    ensures -1 <= r < |s|
    ensures r >= 0 ==> s[r] == '.'
    ensures forall k :: r < k < |s| ==> s[k] != '.'
  {
    if s == [] then -1
    else if s[|s| - 1] == '.' then |s| - 1
    else LastDot(s[..|s| - 1])
  }

  /**
   * The extension of a file name: the suffix that starts at its last '.',
   * or the empty string when there is no '.' or the only candidate is the
   * leading '.' of a hidden file.
   */
  function ExtName(fileName: string): (ext: string)
    ensures ext == [] || (ext[0] == '.' && |ext| < |fileName|)
    ensures ext != [] ==> ext == fileName[|fileName| - |ext|..]
    ensures forall k :: 0 < k < |ext| ==> ext[k] != '.'
    ensures ext != [] <==> exists k :: 0 < k < |fileName| && fileName[k] == '.'
  {
    var d := LastDot(fileName);
    assert forall k :: 0 < k < |fileName| && fileName[k] == '.' ==> k <= d;
    if d <= 0 then [] else fileName[d..]
  }

  /** A directory entry name is a source image. */
  predicate IsImageFile(fileName: string)
  {
    ToLower(ExtName(fileName)) in ImageFileExtensions && fileName != SpriteFileName
  }

  /** `fileName` ends, after at least one other character, in `ext` up to case. */
  predicate EndsWithExtension(fileName: string, ext: string)
  {
    |ext| < |fileName| && ToLower(fileName[|fileName| - |ext|..]) == ext
  }

  lemma LowerCharIsDot(c: char)
    ensures LowerChar(c) == '.' <==> c == '.'
  {
  }

  /** Every listed extension is one dot followed by dot-free characters. */
  lemma ExtensionShape(e: string)
    requires e in ImageFileExtensions
    ensures |e| > 1 && e[0] == '.' && forall k :: 0 < k < |e| ==> e[k] != '.'
  {
  }

  /**
   * The filter, restated without extension parsing: a name is an image exactly
   * when some listed extension is a proper, case-insensitive suffix of it and
   * the name is not literally the output file name.
   */
  lemma {:induction false} IsImageFileIffSuffix(fileName: string)
    ensures IsImageFile(fileName) <==>
      fileName != SpriteFileName &&
      exists e :: e in ImageFileExtensions && EndsWithExtension(fileName, e)
  {
    var ext := ExtName(fileName);
    if IsImageFile(fileName) {
      var e := ToLower(ext);
      ExtensionShape(e);
      assert EndsWithExtension(fileName, e);
    }
    if fileName != SpriteFileName && exists e :: e in ImageFileExtensions && EndsWithExtension(fileName, e) {
      var e :| e in ImageFileExtensions && EndsWithExtension(fileName, e);
      ExtensionShape(e);
      var n := |fileName|;
      var start := n - |e|;
      var suffix := fileName[start..];
      assert ToLower(suffix) == e;
      LowerCharIsDot(suffix[0]);
      assert fileName[start] == '.';
      forall k | start < k < n
        ensures fileName[k] != '.'
      {
        LowerCharIsDot(suffix[k - start]);
      }
      assert LastDot(fileName) == start;
      assert ExtName(fileName) == suffix;
    }
  }

  /** The reserved name is rejected even though its extension is listed. */
  lemma SpriteOutputIsNotAnImage()
    ensures !IsImageFile("sprite.png")
  {
  }

  /** The stylesheet written beside the sprite is not taken as an image. */
  lemma StylesheetIsNotAnImage()
    ensures !IsImageFile("sprite.css")
  {
    assert "sprite.css"[6] == '.';
    assert "sprite.css"[6..] == ".css";
    assert ToLower(".css") == ".css";
  }

  /** The reserved-name test is case-sensitive while the extension test is not. */
  lemma {:induction false} CapitalisedSpriteIsAnImage()
    ensures IsImageFile("Sprite.PNG")
  {
    var name := "Sprite.PNG";
    assert name[6] == '.';
    assert name[6..] == ".PNG";
    assert ToLower(".PNG") == ".png";
    assert name[0] != SpriteFileName[0];
  }

  /** A bare extension is a hidden file with no extension at all. */
  lemma HiddenFileIsNotAnImage()
    ensures !IsImageFile(".png")
  {
    assert ".png"[0] == '.';
  }

  /** Only the last extension counts: a name ending in an image extension is accepted. */
  lemma {:induction false} DoubleExtension()
    ensures IsImageFile("logo.txt.gif")
  {
    assert "logo.txt.gif"[8] == '.';
    assert "logo.txt.gif"[8..] == ".gif";
    assert ToLower(".gif") == ".gif";
  }

  /** Only the last extension counts: an image extension followed by another one is not. */
  lemma {:induction false} InnerExtensionIgnored()
    ensures !IsImageFile("logo.gif.txt")
  {
    assert "logo.gif.txt"[8] == '.';
    assert "logo.gif.txt"[8..] == ".txt";
    assert ToLower(".txt") == ".txt";
  }
}
