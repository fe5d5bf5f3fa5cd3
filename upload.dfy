/** The image-upload middleware: the file filter that decides whether an
    uploaded file is accepted, and the rule that names the stored file. */
module Upload {
  import opened Common
  import opened JsText

  /** The extensions the filter's regular expression lists. */
  const ImageExtensions: seq<string> := ["jpg", "jpeg", "png", "webp", "heic", "heif"]

  const RejectMessage: string := "Only image files allowed"

  /** The extension given to a stored file whose original name has none. */
  const DefaultExtension: string := ".jpg"

  /** What the filter sees of an upload: the client's file name and the
      declared MIME type, either of which may be missing. */
  datatype UploadedFile = UploadedFile(originalName: Option<string>, mimetype: Option<string>)

  /** The filter's callback: `cb(null, true)` or `cb(new Error(message), false)`. */
  datatype Decision = Accept | Reject(message: string)

  /** `/\.(jpg|jpeg|png|webp|heic|heif)$/i` tested against `name`. */
  predicate HasImageExtension(name: string) {
    exists e | e in ImageExtensions :: EndsWithIgnoreCase(name, "." + e)
  }

  /** The same expression read as a pattern: a dot somewhere in `name`
      followed, up to the end, by one of the extensions in any letter case. */
  ghost predicate ImageExtensionAt(name: string, k: int) {
    exists e | e in ImageExtensions :: DotThen(name, k, e)
  }

  /** `name` has a dot at index `k` followed by `e`, up to the end, in any letter case. */
  ghost predicate DotThen(name: string, k: int, e: string) {
    0 <= k < |name| && name[k] == '.' && EqualsIgnoreCase(name[k + 1..], e)
  }

  /** `/^image\//i` tested against `mime`. */
  predicate HasImageMime(mime: string) {
    StartsWithIgnoreCase(mime, "image/")
  }

  /** `fileFilter`: a missing name is tested as the empty string and a
      missing MIME type fails its test. */
  function FileFilter(f: UploadedFile): (d: Decision)
    ensures d == Accept || d == Reject(RejectMessage)
    ensures d == Accept <==>
      (exists k :: ImageExtensionAt(f.originalName.GetOr(""), k))
      || (f.mimetype.Some? && HasImageMime(f.mimetype.value))
  {
    var name := f.originalName.GetOr("");
    ExtensionPattern(name);
    var hasValidExt := HasImageExtension(name);
    var hasValidMime := f.mimetype.Some? && HasImageMime(f.mimetype.value);
    if hasValidExt || hasValidMime then Accept else Reject(RejectMessage)
  }

  lemma ToLowerAsciiConcat(a: string, b: string)
    ensures ToLowerAscii(a + b) == ToLowerAscii(a) + ToLowerAscii(b)
  {
  }

  lemma EndsWithDot(name: string, e: string)
    ensures EndsWithIgnoreCase(name, "." + e) <==> DotThen(name, |name| - |e| - 1, e)
    ensures forall k | DotThen(name, k, e) :: k == |name| - |e| - 1
  {
    var k := |name| - |e| - 1;
    if 0 <= k {
      var tail := name[k..];
      assert tail == [name[k]] + name[k + 1..];
      ToLowerAsciiConcat([name[k]], name[k + 1..]);
      ToLowerAsciiConcat(".", e);
      var lt, le := ToLowerAscii(tail), ToLowerAscii("." + e);
      assert lt == [LowerChar(name[k])] + ToLowerAscii(name[k + 1..]);
      assert le == ['.'] + ToLowerAscii(e);
      assert LowerChar(name[k]) == '.' <==> name[k] == '.';
      assert lt == le <==> lt[0] == le[0] && lt[1..] == le[1..];
    }
    forall k' | DotThen(name, k', e) ensures k' == k {
      assert |ToLowerAscii(name[k' + 1..])| == |name| - k' - 1;
    }
  }

  /** The test against the end of the name is the pattern read above. */
  lemma ExtensionPattern(name: string)
    ensures HasImageExtension(name) <==> exists k :: ImageExtensionAt(name, k)
  {
    if HasImageExtension(name) {
      var e :| e in ImageExtensions && EndsWithIgnoreCase(name, "." + e);
      ExtensionAtEnd(name, e);
    }
    if k :| ImageExtensionAt(name, k) {
      var e :| e in ImageExtensions && DotThen(name, k, e);
      EndsWithDot(name, e);
      assert EndsWithIgnoreCase(name, "." + e);
    }
  }

  lemma ExtensionAtEnd(name: string, e: string)
    requires e in ImageExtensions && EndsWithIgnoreCase(name, "." + e)
    ensures ImageExtensionAt(name, |name| - |e| - 1)
  {
    EndsWithDot(name, e);
    assert DotThen(name, |name| - |e| - 1, e);
  }

  /** Lower-casing twice is lower-casing once. */
  lemma ToLowerAsciiIdempotent(s: string)
    ensures ToLowerAscii(ToLowerAscii(s)) == ToLowerAscii(s)
  {
  }

  /** The filter ignores the letter case of the name and of the MIME type. */
  lemma FileFilterIgnoresCase(name: string, mime: string)
    ensures FileFilter(UploadedFile(Some(name), Some(mime)))
         == FileFilter(UploadedFile(Some(ToLowerAscii(name)), Some(ToLowerAscii(mime))))
  {
    var lname := ToLowerAscii(name);
    var lmime := ToLowerAscii(mime);
    forall e | e in ImageExtensions
      ensures EndsWithIgnoreCase(name, "." + e) <==> EndsWithIgnoreCase(lname, "." + e)
    {
      if |"." + e| <= |name| {
        assert lname[|name| - |"." + e|..] == ToLowerAscii(name[|name| - |"." + e|..]);
        ToLowerAsciiIdempotent(name[|name| - |"." + e|..]);
      }
    }
    assert HasImageExtension(name) == HasImageExtension(lname);
    if |"image/"| <= |mime| {
      assert lmime[..|"image/"|] == ToLowerAscii(mime[..|"image/"|]);
      ToLowerAsciiIdempotent(mime[..|"image/"|]);
    }
    ExtensionPattern(name);
    ExtensionPattern(lname);
  }

  /** A file with neither a name nor a MIME type is rejected. */
  lemma FileFilterRejectsAnonymous()
    ensures FileFilter(UploadedFile(None, None)) == Reject(RejectMessage)
  {
    ExtensionPattern("");
  }

  // ---------------------------------------------------------------------
  // The stored file name
  // ---------------------------------------------------------------------

  /** The index of the last `c` in `s`, or -1. */
  function LastIndexOf(s: string, c: char): (r: int)
    ensures -1 <= r < |s|
    ensures r >= 0 ==> s[r] == c
    ensures forall i | r < i < |s| :: s[i] != c
  {
    if s == [] then -1
    else if s[|s| - 1] == c then |s| - 1
    else LastIndexOf(s[..|s| - 1], c)
  }

  /** `p` without the slashes it ends with. */
  function StripTrailingSlashes(p: string): (r: string)
    ensures |r| <= |p| && r == p[..|r|]
    ensures r == [] || r[|r| - 1] != '/'
    ensures forall i | |r| <= i < |p| :: p[i] == '/'
  {
    if p != [] && p[|p| - 1] == '/' then StripTrailingSlashes(p[..|p| - 1]) else p
  }

  /** The last path component of `p` after trailing slashes are dropped. */
  function BaseName(p: string): (b: string)
    ensures '/' !in b
  {
    var t := StripTrailingSlashes(p);
    t[LastIndexOf(t, '/') + 1..]
  }

  /** POSIX `path.extname`: the last path component from its last dot to its
      end. It is empty when that component has no dot, when its only dot is
      its first character (a name such as `.jpg`), and when it is `..`. */
  function ExtName(p: string): (e: string)
    ensures e == [] || (e[0] == '.' && '.' !in e[1..] && '/' !in e)
  {
    var base := BaseName(p);
    var dot := LastIndexOf(base, '.');
    if dot <= 0 || base == ".." then ""
    else
      assert forall i | 0 <= i < |base| - dot - 1 :: base[dot..][1..][i] == base[dot + 1 + i];
      base[dot..]
  }

  /** The base name is the last component: the end of the path without its
      trailing slashes, preceded by a slash or by nothing. */
  lemma BaseNameIsLastComponent(p: string)
    ensures var t, b := StripTrailingSlashes(p), BaseName(p);
      && |b| <= |t| && b == t[|t| - |b|..]
      && (|b| == |t| || t[|t| - |b| - 1] == '/')
  {
    var t := StripTrailingSlashes(p);
    var k := LastIndexOf(t, '/');
    assert BaseName(p) == t[k + 1..];
  }

  /** `path.extname` is empty exactly when the base name has no dot, has its
      only dot first, or is `..`; otherwise it is the suffix of the base name
      from its last dot, preceded by at least one character. */
  lemma ExtNameIsLastDotSuffix(p: string)
    ensures var b, e := BaseName(p), ExtName(p);
      && (e == [] <==> '.' !in b || (b[0] == '.' && '.' !in b[1..]) || b == "..")
      && (e != [] ==> |e| < |b| && e == b[|b| - |e|..] && e[0] == '.' && '.' !in e[1..])
  {
    var b := BaseName(p);
    var dot := LastIndexOf(b, '.');
    if dot == -1 {
      assert forall i | 0 <= i < |b| :: b[i] != '.';
    } else if dot == 0 {
      assert forall k | 0 <= k < |b| - 1 :: b[1..][k] == b[k + 1];
    } else {
      assert b[1..][dot - 1] == '.';
      if b != ".." {
        assert ExtName(p) == b[dot..];
        assert |b| - |b[dot..]| == dot;
      }
    }
  }

  /** `path.extname(originalname).toLowerCase() || '.jpg'` */
  function StoredExtension(originalName: string): (e: string)
    ensures |e| >= 1 && e[0] == '.' && '.' !in e[1..] && '/' !in e
    ensures ExtName(originalName) != "" ==> e == ToLowerAscii(ExtName(originalName))
    ensures ExtName(originalName) == "" ==> e == DefaultExtension
  {
    var ext := ExtName(originalName);
    var lower := ToLowerAscii(ext);
    if lower == "" then DefaultExtension
    else
      assert forall i | 1 <= i < |lower| :: lower[i] == LowerChar(ext[i]) && ext[i] != '.';
      assert forall i | 1 <= i < |lower| :: lower[1..][i - 1] == lower[i];
      assert forall i | 0 <= i < |lower| :: lower[i] != '/';
      lower
  }

  /** `product_${Date.now()}${ext}`, the name the stored file gets; `now` is
      the clock reading in milliseconds. */
  function StoredFilename(originalName: string, now: nat): string {
    "product_" + NatToString(now) + StoredExtension(originalName)
  }

  /** The stored name starts with `product_`, has no slash, so it stays in
      the upload directory, and `parseInt` reads the timestamp back from what
      follows the prefix. */
  lemma StoredFilenameShape(originalName: string, now: nat)
    ensures var f := StoredFilename(originalName, now);
      && |f| > |"product_"| && f[..|"product_"|] == "product_"
      && '/' !in f
      && ParseInt(f[|"product_"|..]) == Some(now as int)
  {
    var digits := NatToString(now);
    var ext := StoredExtension(originalName);
    assert forall i | 0 <= i < |digits| :: IsRadixDigit(digits[i], 10);
    assert '/' !in digits;
    NotInConcat('/', "product_", digits);
    NotInConcat('/', "product_" + digits, ext);
    DropPrefix("product_", digits, ext);
    ParseIntOfDecimal(now, ext);
  }

  lemma DropPrefix(a: string, b: string, c: string)
    ensures (a + b + c)[|a|..] == b + c
  {
    assert forall i | 0 <= i < |b + c| :: (a + b + c)[|a|..][i] == (b + c)[i];
  }

  lemma NotInConcat(c: char, a: string, b: string)
    requires c !in a && c !in b
    ensures c !in a + b
  {
  }

  /** A name without a slash is its own last path component. */
  lemma BaseNameOfPlain(f: string)
    requires '/' !in f
    ensures BaseName(f) == f
  {
    assert forall k | 0 <= k < |f| :: f[k] != '/';
    assert StripTrailingSlashes(f) == f;
    assert LastIndexOf(f, '/') == -1;
  }

  /** The last dot of `prefix + e` is the first character of `e` when `e`
      has no other dot. */
  lemma LastDot(prefix: string, e: string)
    requires |e| >= 1 && e[0] == '.' && '.' !in e[1..]
    ensures LastIndexOf(prefix + e, '.') == |prefix|
  {
    var f := prefix + e;
    assert f[|prefix|] == '.';
    assert forall k | 0 <= k < |e| - 1 :: e[1..][k] != '.';
    assert forall k | |prefix| < k < |f| :: f[k] == e[1..][k - |prefix| - 1];
  }

  /** The stored name keeps the extension rule: reading its extension back
      gives the lower-cased extension of the original name, or `.jpg` when
      that was empty. */
  lemma StoredFilenameExtension(originalName: string, now: nat)
    ensures ExtName(StoredFilename(originalName, now)) == StoredExtension(originalName)
  {
    var digits := NatToString(now);
    var prefix := "product_" + digits;
    var e := StoredExtension(originalName);
    var f := prefix + e;
    assert forall i | 0 <= i < |digits| :: IsRadixDigit(digits[i], 10);
    assert '/' !in digits;
    assert '/' !in prefix;
    assert '/' !in f;
    BaseNameOfPlain(f);
    LastDot(prefix, e);
    assert f[0] == 'p';
    assert f[|prefix|..] == e;
  }
}
