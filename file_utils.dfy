/**
 * The front end's file-name helpers: the extension of a name, computed
 * with JavaScript's unsigned-shift idiom, the document and image tests
 * built on it, and the zero case of the size formatter.
 */
module FileUtils {
  import opened Base
  import opened Text
  import opened Browser

  const TwoTo32 := 0x1_0000_0000

  /** `x >>> 0`: the 32-bit two's-complement pattern of `x` read as unsigned. */
  function UnsignedShift(x: int): (r: nat)
    ensures r < TwoTo32
    ensures 0 <= x < TwoTo32 ==> r == x
    ensures -TwoTo32 <= x < 0 ==> r == x + TwoTo32
  {
    if 0 <= x < TwoTo32 then x
    else if -TwoTo32 <= x < 0 then x + TwoTo32
    else x % TwoTo32
  }

  /** `s.slice(start)` for a start that is not negative: empty past the end. */
  function SliceFrom(s: string, start: nat): (r: string)
    ensures start <= |s| ==> r == s[start..]
    ensures start >= |s| ==> r == []
  {
    if start >= |s| then [] else s[start..]
  }

  /** `getFileExtension`: the name from one past `lastIndexOf('.') - 1 >>> 0`, plus 2, lower-cased. */
  function GetFileExtension(filename: string): (r: string)
    ensures |r| <= |filename|
    ensures forall i :: 0 <= i < |r| ==> !('A' <= r[i] <= 'Z')
  {
    Lower(SliceFrom(filename, UnsignedShift(LastIndexOf(filename, '.') - 1) + 2))
  }

  /** Where the slice starts, for a dot at `dot` (-1 when there is none) in a name of length `n`. */
  lemma {:induction false} SliceStart(dot: int, n: nat)
    requires -1 <= dot < n < TwoTo32 - 2
    ensures dot >= 1 ==> UnsignedShift(dot - 1) + 2 == dot + 1
    ensures dot < 1 ==> UnsignedShift(dot - 1) + 2 >= n
  {
  }

  /** Lower-casing never produces a '.'. */
  lemma {:induction false} LowerDotFree(s: string)
    requires '.' !in s
    ensures '.' !in Lower(s)
  {
    forall k | 0 <= k < |s| ensures Lower(s)[k] != '.' {
      assert s[k] != '.';
    }
  }

  /** The text after a dot that is not the first character is the extension. */
  lemma {:induction false} ExtensionAfterDot(filename: string)
    requires |filename| < TwoTo32 - 2 && LastIndexOf(filename, '.') >= 1
    ensures GetFileExtension(filename) == Lower(filename[LastIndexOf(filename, '.') + 1..])
  {
    SliceStart(LastIndexOf(filename, '.'), |filename|);
  }

  /** With no dot, or only a leading one, the shift turns -2 or -1 into a start past the end. */
  lemma {:induction false} ExtensionWithoutDot(filename: string)
    requires |filename| < TwoTo32 - 2 && LastIndexOf(filename, '.') < 1
    ensures GetFileExtension(filename) == []
  {
    SliceStart(LastIndexOf(filename, '.'), |filename|);
  }

  /**
   * The extension is the lower-cased text after the last '.', and it is
   * empty when there is no '.' or the only one opens the name.
   */
  lemma {:induction false} ExtensionAfterLastDot(filename: string)
    requires |filename| < TwoTo32 - 2
    ensures LastIndexOf(filename, '.') >= 1 ==>
              GetFileExtension(filename) == Lower(filename[LastIndexOf(filename, '.') + 1..])
    ensures LastIndexOf(filename, '.') < 1 ==> GetFileExtension(filename) == []
    ensures '.' !in GetFileExtension(filename)
  {
    var dot := LastIndexOf(filename, '.');
    if dot >= 1 {
      ExtensionAfterDot(filename);
      var ext := filename[dot + 1..];
      forall k | 0 <= k < |ext| ensures ext[k] != '.' {
        assert ext[k] == filename[dot + 1 + k];
      }
      LowerDotFree(ext);
    } else {
      ExtensionWithoutDot(filename);
    }
  }

  /** The extension of `stem + "." + ext`, for a non-empty stem and a dot-free `ext`, is `ext` lower-cased. */
  lemma {:induction false} ExtensionOfJoined(stem: string, ext: string)
    requires stem != [] && '.' !in ext
    requires |stem| + 1 + |ext| < TwoTo32 - 2
    ensures GetFileExtension(stem + "." + ext) == Lower(ext)
  {
    var name := stem + "." + ext;
    assert name[|stem|] == '.';
    forall j | |stem| < j < |name| ensures name[j] != '.' {
      assert name[j] == ext[j - |stem| - 1];
    }
    assert LastIndexOf(name, '.') == |stem|;
    assert name[|stem| + 1..] == ext;
    ExtensionAfterLastDot(name);
  }

  const DocumentExtensions: seq<string> := ["pdf", "docx"]
  const ImageExtensions: seq<string> := ["jpg", "jpeg", "png", "gif", "bmp"]

  /** `isDocument`: the extension of the file's name is `pdf` or `docx`. */
  predicate IsDocument(file: JsFile)
    ensures IsDocument(file) ==> GetFileExtension(file.name) != []
  {
    GetFileExtension(file.name) in DocumentExtensions
  }

  /** `isImage`: the extension is `jpg`, `jpeg`, `png`, `gif` or `bmp`. */
  predicate IsImage(file: JsFile)
    ensures IsImage(file) ==> GetFileExtension(file.name) != []
  {
    GetFileExtension(file.name) in ImageExtensions
  }

  /** The two lists share no extension, so no file is both a document and an image. */
  lemma {:induction false} DocumentNotImage(file: JsFile)
    ensures !(IsDocument(file) && IsImage(file))
  {
    var ext := GetFileExtension(file.name);
    if ext in DocumentExtensions {
      assert ext[0] == 'p' || ext[0] == 'd';
      assert forall e :: e in ImageExtensions ==> e[0] != 'p' || e[2] != ext[2];
    }
  }

  /** A name `stem.ext` is a document exactly when `ext`, lower-cased, is `pdf` or `docx`, whatever its case. */
  lemma {:induction false} DocumentByExtension(stem: string, ext: string, size: nat, mime: string)
    requires stem != [] && '.' !in ext
    requires |stem| + 1 + |ext| < TwoTo32 - 2
    ensures IsDocument(JsFile(stem + "." + ext, size, mime)) <==> Lower(ext) in DocumentExtensions
    ensures IsImage(JsFile(stem + "." + ext, size, mime)) <==> Lower(ext) in ImageExtensions
  {
    ExtensionOfJoined(stem, ext);
  }

  /**
   * `formatFileSize`: `'0 Bytes'` for zero; the other sizes go through
   * `Math.log` and `toFixed`, given here as `scaled`.
   */
  function FormatFileSize(bytes: int, scaled: int -> string): (r: string)
    ensures bytes == 0 ==> r == "0 Bytes"
  {
    if bytes == 0 then "0 Bytes" else scaled(bytes)
  }
}
