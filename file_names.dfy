/**
 * The file-name logic of the upload pipeline: the extension allow-list
 * check `allowed_file`, POSIX `os.path.splitext`, `str.split('.')[-1]`,
 * and the names of the artifacts a successful run writes.
 */
module FileNames {

  /** ALLOWED_EXTENSIONS: the extensions an upload may carry, in lower case. */
  const AllowedExtensions: set<string> := {"png", "jpg", "jpeg"}

  /** `s.rfind(c)`: the index of the last `c` in `s`, or -1 when there is none. */
  function RFind(s: string, c: char): (r: int)
    ensures -1 <= r < |s|
    ensures r >= 0 ==> s[r] == c
    ensures forall k :: r < k < |s| ==> s[k] != c
  {
    if |s| == 0 then -1
    else if s[|s| - 1] == c then |s| - 1
    else RFind(s[..|s| - 1], c)
  }

  /** `c.lower()` for the ASCII letters. */
  function LowerChar(c: char): char
  {
    if 'A' <= c <= 'Z' then (c as int + 32) as char else c
  }

  /** `s.lower()`, letter by letter: no capital is left, and every other character is kept. */
  function Lower(s: string): (r: string)
    ensures |r| == |s|
    ensures forall k :: 0 <= k < |r| ==> !('A' <= r[k] <= 'Z')
    ensures forall k :: 0 <= k < |s| && !('A' <= s[k] <= 'Z') ==> r[k] == s[k]
    ensures forall k :: 0 <= k < |s| && 'A' <= s[k] <= 'Z' ==> r[k] as int == s[k] as int + 32
  {
    seq(|s|, k requires 0 <= k < |s| => LowerChar(s[k]))
  }

  /**
   * `s.split('.')[-1]`: the text after the last '.', or all of `s` when it
   * has no '.'. When `s` holds a '.', this is also `s.rsplit('.', 1)[1]`.
   */
  function LastSegment(s: string): (r: string)
    ensures '.' !in r
    ensures |r| <= |s| && r == s[|s| - |r|..]
    ensures '.' in s ==> |r| < |s| && s[|s| - |r| - 1] == '.'
    ensures '.' !in s ==> r == s
  {
    s[RFind(s, '.') + 1..]
  }

  /**
   * `allowed_file`: the name holds a '.' and the text after its last '.',
   * lower-cased, is one of the allowed extensions.
   */
  predicate AllowedFile(filename: string)
  {
    '.' in filename && Lower(LastSegment(filename)) in AllowedExtensions
  }

  /** Lower-casing keeps every '.' where it is, so the last segment of the lowered name is the lowered last segment. */
  lemma LastSegmentOfLower(s: string)
    ensures RFind(Lower(s), '.') == RFind(s, '.')
    ensures LastSegment(Lower(s)) == Lower(LastSegment(s))
  {
    var i, t := RFind(s, '.'), Lower(s);
    assert forall k :: 0 <= k < |s| ==> (t[k] == '.' <==> s[k] == '.');
    assert RFind(t, '.') == i;
    assert t[i + 1..] == Lower(s[i + 1..]);
  }

  /** Lower-casing twice is lower-casing once. */
  lemma LowerIdempotent(s: string)
    ensures Lower(Lower(s)) == Lower(s)
  {
  }

  /** allowed_file does not depend on the case of the name. */
  lemma AllowedFileCaseInsensitive(s: string)
    ensures AllowedFile(Lower(s)) <==> AllowedFile(s)
  {
    LastSegmentOfLower(s);
    LowerIdempotent(LastSegment(s));
    assert '.' in s ==> '.' in Lower(s) by {
      if '.' in s {
        var k :| 0 <= k < |s| && s[k] == '.';
        assert Lower(s)[k] == '.';
      }
    }
  }

  /** The dot at index `i` is the last dot of `s`. */
  predicate LastDotAt(s: string, i: int)
  {
    0 <= i < |s| && s[i] == '.' && '.' !in s[i + 1..]
  }

  /** A last dot is the one RFind finds, and the text after it is the last segment. */
  lemma LastDotIsRFind(s: string, i: int)
    requires LastDotAt(s, i)
    ensures i == RFind(s, '.') && s[i + 1..] == LastSegment(s)
  {
  }

  /** In a name with a '.', the one RFind finds is its last dot. */
  lemma RFindIsLastDot(s: string)
    requires '.' in s
    ensures LastDotAt(s, RFind(s, '.')) && s[RFind(s, '.') + 1..] == LastSegment(s)
  {
    var i := RFind(s, '.');
    var t := s[i + 1..];
    forall k | 0 <= k < |t|
      ensures t[k] != '.'
    {
      assert t[k] == s[i + 1 + k];
    }
  }

  /**
   * AllowedFile in terms of positions: some '.' is followed only by a
   * dot-free extension that lower-cases into the allow-list.
   */
  lemma AllowedFileIff(filename: string)
    ensures AllowedFile(filename) <==>
      exists i :: LastDotAt(filename, i) && Lower(filename[i + 1..]) in AllowedExtensions
  {
    if AllowedFile(filename) {
      RFindIsLastDot(filename);
      var i := RFind(filename, '.');
      AllowedFileAtLastDot(filename, i);
    } else {
      forall i | LastDotAt(filename, i)
        ensures Lower(filename[i + 1..]) !in AllowedExtensions
      {
        AllowedFileAtLastDot(filename, i);
      }
    }
  }

  /** Given its last dot, a name is allowed exactly when the text after that dot is. */
  lemma AllowedFileAtLastDot(filename: string, i: int)
    requires LastDotAt(filename, i)
    ensures AllowedFile(filename) <==> Lower(filename[i + 1..]) in AllowedExtensions
  {
    LastDotIsRFind(filename, i);
  }

  /** Case is ignored: "A.PNG" is accepted. */
  lemma AllowedFileIgnoresCase()
    ensures AllowedFile("A.PNG")
  {
    assert LastSegment("A.PNG") == "PNG";
    assert Lower("PNG") == "png";
  }

  /** Only the text after the last '.' is checked, in any case: "a.b.Jpeg" is accepted. */
  lemma AllowedFileChecksLastSegment()
    ensures AllowedFile("a.b.Jpeg")
  {
    assert LastSegment("a.b.Jpeg") == "Jpeg";
    assert Lower("Jpeg") == "jpeg";
  }

  /** Only the last extension counts: "x.png.txt" and "scan.gif" are rejected. */
  lemma AllowedFileUsesLastExtension()
    ensures !AllowedFile("x.png.txt")
  {
    assert LastSegment("x.png.txt") == "txt";
    assert Lower("txt") == "txt";
  }

  /** An extension outside the list is refused. */
  lemma AllowedFileRefusesOtherExtension()
    ensures !AllowedFile("a.gif")
  {
    assert LastSegment("a.gif") == "gif";
    assert Lower("gif") == "gif";
  }

  /** A name without a '.' is rejected, even when it reads "png". */
  lemma AllowedFileNeedsDot()
    ensures !AllowedFile("png")
  {
    assert '.' !in "png";
  }

  /**
   * `os.path.splitext` on POSIX: the extension starts at the last '.' of the
   * final path component, unless only dots precede that '.' in the
   * component; otherwise the extension is empty.
   */
  function SplitExt(p: string): (r: (string, string))
    ensures r.0 + r.1 == p
    ensures r.1 == "" || (r.1[0] == '.' && '.' !in r.1[1..] && '/' !in r.1)
    ensures r.1 != "" ==> r.0 != ""
  {
    var sepIndex := RFind(p, '/');
    var dotIndex := RFind(p, '.');
    if dotIndex > sepIndex && exists k :: sepIndex < k < dotIndex && p[k] != '.' then
      (p[..dotIndex], p[dotIndex..])
    else
      (p, "")
  }

  /** The base name `os.path.splitext(filename)[0]`. */
  function Base(filename: string): (r: string)
    ensures r <= filename
    ensures var ext := filename[|r|..]; ext == "" || (ext[0] == '.' && '.' !in ext[1..] && '/' !in ext)
  {
    SplitExt(filename).0
  }

  /** A name with no separator, some non-dot character before its last '.', and an extension after it. */
  lemma SplitExtOfDottedName(head: string, ext: string)
    requires '/' !in head && '/' !in ext && '.' !in ext
    requires exists k :: 0 <= k < |head| && head[k] != '.'
    ensures SplitExt(head + "." + ext) == (head, "." + ext)
    ensures LastSegment(head + "." + ext) == ext
  {
    var p := head + "." + ext;
    var sepIndex := RFind(p, '/');
    var dotIndex := RFind(p, '.');
    assert '/' !in p;
    assert sepIndex == -1;
    assert p[|head|] == '.';
    assert '.' !in p[|head| + 1..] by { assert p[|head| + 1..] == ext; }
    LastDotIsRFind(p, |head|);
    var k :| 0 <= k < |head| && head[k] != '.';
    assert p[k] == head[k];
    assert p[..dotIndex] == head;
    assert p[dotIndex..] == "." + ext;
  }

  /** The model artifact's name: `f"{base}_3d_model.glb"`. */
  function ModelFileName(base: string): string
  {
    base + "_3d_model.glb"
  }

  /** The image copy's name: `f"{base}_original.{filename.split('.')[-1]}"`. */
  function ImageFileName(base: string, filename: string): string
  {
    base + "_original." + LastSegment(filename)
  }

  /** The video artifact's name: `f"{base}_video.mp4"`. */
  function VideoFileName(base: string): string
  {
    base + "_video.mp4"
  }

  /**
   * The three artifacts of one run never overwrite one another: their names
   * share the base and differ in the character right after the '_'.
   */
  lemma ArtifactNamesDistinct(base: string, filename: string)
    ensures ModelFileName(base) != ImageFileName(base, filename)
    ensures ModelFileName(base) != VideoFileName(base)
    ensures ImageFileName(base, filename) != VideoFileName(base)
  {
    var n := |base| + 1;
    assert ModelFileName(base)[n] == '3';
    assert ImageFileName(base, filename)[n] == 'o';
    assert VideoFileName(base)[n] == 'v';
  }

  /** Every artifact name begins with the base it was derived from. */
  lemma ArtifactNamesStartWithBase(base: string, filename: string)
    ensures base <= ModelFileName(base)
    ensures base <= ImageFileName(base, filename)
    ensures base <= VideoFileName(base)
  {
    assert ModelFileName(base)[..|base|] == base;
    assert ImageFileName(base, filename)[..|base|] == base;
    assert VideoFileName(base)[..|base|] == base;
  }

  /**
   * For an upload `head.ext`, the model is `head_3d_model.glb` whatever
   * `ext` was, the image copy keeps `ext` exactly as written (its case
   * included), and the video is `head_video.mp4`.
   */
  lemma ArtifactNamesOfDottedName(head: string, ext: string)
    requires '/' !in head && '/' !in ext && '.' !in ext
    requires exists k :: 0 <= k < |head| && head[k] != '.'
    ensures ModelFileName(Base(head + "." + ext)) == head + "_3d_model.glb"
    ensures ImageFileName(Base(head + "." + ext), head + "." + ext) == head + "_original." + ext
    ensures VideoFileName(Base(head + "." + ext)) == head + "_video.mp4"
  {
    SplitExtOfDottedName(head, ext);
  }

  /**
   * The format warning shown after a successful run, as written:
   * `os.path.splitext(name)[1].lower() not in ALLOWED_EXTENSIONS`.
   */
  predicate FormatWarningAsWritten(name: string)
  {
    Lower(SplitExt(name).1) !in AllowedExtensions
  }

  /** The extension splitext returns keeps its leading '.', so the warning as written fires for every name. */
  lemma FormatWarningAlwaysFires(name: string)
    ensures FormatWarningAsWritten(name)
  {
    var ext := SplitExt(name).1;
    if ext != "" {
      assert Lower(ext)[0] == '.';
      assert "png"[0] != '.' && "jpg"[0] != '.' && "jpeg"[0] != '.';
    } else {
      assert Lower(ext) == "";
    }
  }

  /** The format warning as evidently intended: the extension without its '.', lower-cased, is not allowed. */
  predicate FormatWarning(name: string)
  {
    var ext := SplitExt(name).1;
    ext == "" || Lower(ext[1..]) !in AllowedExtensions
  }

  /**
   * The intended warning fires for every name allowed_file rejects, and for
   * no name allowed_file accepts once its last '.' follows a non-dot
   * character and no separator.
   */
  lemma FormatWarningMatchesAllowedFile(name: string)
    ensures !AllowedFile(name) ==> FormatWarning(name)
    ensures AllowedFile(name) && '/' !in name && (exists k :: 0 <= k < RFind(name, '.') && name[k] != '.')
      ==> !FormatWarning(name)
  {
    var ext := SplitExt(name).1;
    if ext != "" {
      var dotIndex := RFind(name, '.');
      assert ext == name[dotIndex..];
      assert ext[1..] == LastSegment(name);
    }
    if AllowedFile(name) && '/' !in name && (exists k :: 0 <= k < RFind(name, '.') && name[k] != '.') {
      var dotIndex := RFind(name, '.');
      var sepIndex := RFind(name, '/');
      assert sepIndex == -1;
      assert ext == name[dotIndex..];
      assert ext[1..] == LastSegment(name);
    }
  }
}
