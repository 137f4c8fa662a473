/** The testimonial photo upload of src/utils/imageUpload.ts: the file check,
    the generated file name and the (simulated) upload that answers with the
    public URL. The clock and the random string are parameters. */
module ImageUpload {
  import opened Base

  const AllowedImageTypes: seq<string> := ["image/jpeg", "image/jpg", "image/png", "image/webp"]
  const MaxFileSize: nat := 5 * 1024 * 1024
  const UploadPath: string := "images/testimonials/"
  const DefaultBaseUrl: string := "https://contabilidade.ismaelstrey.workers.dev"
  const FileNamePrefix: string := "testimonial_"
  const FallbackExtension: string := "jpg"

  /** What the check reads of an uploaded `File`. */
  datatype ImageFile = ImageFile(name: string, mimeType: string, size: nat)

  datatype Validation = Valid | Invalid(error: string)

  /** The refusal texts; the first lists the accepted types joined by `, `,
      the second gives the limit in MiB. */
  const TypeError: string := "Tipo de arquivo não permitido. Tipos aceitos: image/jpeg, image/jpg, image/png, image/webp"
  const SizeError: string := "Arquivo muito grande. Tamanho máximo: 5MB"

  /** `validateImageFile`: the type is checked before the size, and a file of
      exactly the maximum size passes. */
  function ValidateImageFile(f: ImageFile): (v: Validation)
    ensures v.Valid? <==> f.mimeType in AllowedImageTypes && f.size <= MaxFileSize
    ensures f.mimeType !in AllowedImageTypes ==> v == Invalid(TypeError)
    ensures f.mimeType in AllowedImageTypes && f.size > MaxFileSize ==> v == Invalid(SizeError)
  {
    if f.mimeType !in AllowedImageTypes then Invalid(TypeError)
    else if f.size > MaxFileSize then Invalid(SizeError)
    else Valid
  }

  /** The size bound is inclusive at 5 MiB and the name plays no part. */
  lemma SizeBoundary(name: string, mimeType: string)
    requires mimeType in AllowedImageTypes
    ensures ValidateImageFile(ImageFile(name, mimeType, 5242880)).Valid?
    ensures ValidateImageFile(ImageFile(name, mimeType, 5242881)) == Invalid(SizeError)
  {
  }

  /** Shrinking an accepted file keeps it accepted. */
  lemma SmallerFileStillValid(f: ImageFile, size: nat)
    requires ValidateImageFile(f).Valid? && size <= f.size
    ensures ValidateImageFile(f.(size := size)).Valid?
  {
  }

  // ---------------------------------------------------------------------
  // File names
  // ---------------------------------------------------------------------

  /** `s` holds no dot. */
  predicate NoDot(s: string) {
    '.' !in s
  }

  /** `s.split('.').pop()`: the text after the last dot, the whole of `s` when
      it has none. */
  function AfterLastDot(s: string): (r: string)
    ensures NoDot(r)
    ensures |r| <= |s| && r == s[|s| - |r|..]
    ensures |r| < |s| ==> s[|s| - |r| - 1] == '.'
    decreases |s|
  {
    if |s| == 0 then ""
    else if s[|s| - 1] == '.' then ""
    else
      var r0 := AfterLastDot(s[..|s| - 1]);
      LastDotStep(s, r0);
      r0 + [s[|s| - 1]]
  }

  /** A last character other than a dot extends the text after the last dot
      of everything before it. */
  lemma LastDotStep(s: string, r0: string)
    requires |s| > 0 && s[|s| - 1] != '.'
    requires var init := s[..|s| - 1];
             && NoDot(r0) && |r0| <= |init| && r0 == init[|init| - |r0|..]
             && (|r0| < |init| ==> init[|init| - |r0| - 1] == '.')
    ensures var r := r0 + [s[|s| - 1]];
            && NoDot(r) && |r| <= |s| && r == s[|s| - |r|..]
            && (|r| < |s| ==> s[|s| - |r| - 1] == '.')
  {
    var init := s[..|s| - 1];
    var r := r0 + [s[|s| - 1]];
    assert s == init + [s[|s| - 1]];
    assert s[|s| - |r|..] == init[|init| - |r0|..] + [s[|s| - 1]];
  }

  lemma {:induction false} AfterLastDotOfSuffix(p: string, e: string)
    requires NoDot(e)
    ensures AfterLastDot(p + "." + e) == e
    decreases |e|
  {
    var s := p + "." + e;
    if |e| == 0 {
      assert s[|s| - 1] == '.';
    } else {
      assert s[..|s| - 1] == p + "." + e[..|e| - 1];
      AfterLastDotOfSuffix(p, e[..|e| - 1]);
      assert e == e[..|e| - 1] + [e[|e| - 1]];
    }
  }

  predicate IsUpperAscii(c: char) { 'A' <= c <= 'Z' }

  function LowerAscii(c: char): (d: char)
    ensures !IsUpperAscii(d)
    ensures IsUpperAscii(c) ==> 'a' <= d <= 'z'
    ensures !IsUpperAscii(c) ==> d == c
  {
    if IsUpperAscii(c) then (c as int - 'A' as int + 'a' as int) as char else c
  }

  /** `toLowerCase`, restricted to the ASCII letters. */
  function ToLowerAscii(s: string): (r: string)
    ensures |r| == |s|
    ensures forall i :: 0 <= i < |s| ==> r[i] == LowerAscii(s[i])
    ensures forall i :: 0 <= i < |r| ==> !IsUpperAscii(r[i])
    decreases |s|
  {
    if |s| == 0 then "" else [LowerAscii(s[0])] + ToLowerAscii(s[1..])
  }

  lemma ToLowerAsciiOfLower(s: string)
    requires forall i :: 0 <= i < |s| ==> !IsUpperAscii(s[i])
    ensures ToLowerAscii(s) == s
  {
  }

  /** The extension kept for the stored file: the lower-cased text after the
      last dot, `jpg` when that is empty. */
  function Extension(name: string): (e: string)
    ensures e != "" && NoDot(e)
    ensures forall i :: 0 <= i < |e| ==> !IsUpperAscii(e[i])
    ensures AfterLastDot(name) == "" ==> e == FallbackExtension
    ensures AfterLastDot(name) != "" ==> |e| == |AfterLastDot(name)|
                                         && forall i :: 0 <= i < |e| ==> e[i] == LowerAscii(AfterLastDot(name)[i])
  {
    var last := ToLowerAscii(AfterLastDot(name));
    assert NoDot(last) by {
      var after := AfterLastDot(name);
      forall i | 0 <= i < |last| ensures last[i] != '.' {
        assert after[i] != '.';
        assert last[i] == LowerAscii(after[i]);
      }
    }
    if last == "" then FallbackExtension else last
  }

  /** `generateUniqueFileName`, with `Date.now()` and the random string given. */
  function GenerateUniqueFileName(originalName: string, timestamp: nat, randomString: string): (r: string)
    ensures |r| == |FileNamePrefix| + |NatToString(timestamp)| + 1 + |randomString| + 1 + |Extension(originalName)|
    ensures StartsWith(r, FileNamePrefix)
    ensures var stamp := FileNamePrefix + NatToString(timestamp) + "_";
            StartsWith(r, stamp) && r[|stamp|..|stamp| + |randomString|] == randomString
    ensures var ext := "." + Extension(originalName);
            |ext| < |r| && r[|r| - |ext|..] == ext
  {
    FileNameParts(FileNamePrefix, NatToString(timestamp), randomString, Extension(originalName));
    FileNamePrefix + (NatToString(timestamp) + "_" + (randomString + "." + Extension(originalName)))
  }

  /** Where the four parts of a generated name sit in it. */
  lemma FileNameParts(prefix: string, stamp: string, rand: string, ext: string)
    ensures var r := prefix + (stamp + "_" + (rand + "." + ext));
            var head := prefix + stamp + "_";
            && StartsWith(r, prefix) && StartsWith(r, head)
            && r[|head|..|head| + |rand|] == rand
            && |"." + ext| < |r| && r[|r| - |"." + ext|..] == "." + ext
            && |r| == |prefix| + |stamp| + 1 + |rand| + 1 + |ext|
  {
    var r := prefix + (stamp + "_" + (rand + "." + ext));
    var head := prefix + stamp + "_";
    assert r == head + rand + ("." + ext);
  }

  /** The generated name carries the original's extension, so extracting it
      again gives the same extension. */
  lemma GeneratedNameKeepsExtension(originalName: string, timestamp: nat, randomString: string)
    requires NoDot(randomString)
    ensures var r := GenerateUniqueFileName(originalName, timestamp, randomString);
            AfterLastDot(r) == Extension(originalName) && Extension(r) == Extension(originalName)
  {
    var e := Extension(originalName);
    var tail := randomString + "." + e;
    var stamped := NatToString(timestamp) + "_" + tail;
    AfterLastDotOfSuffix(randomString, e);
    assert tail[|randomString|] == '.';
    AfterLastDotOfDotted(NatToString(timestamp) + "_", tail, |randomString|);
    var dot := |stamped| - |tail| + |randomString|;
    assert stamped[dot] == '.';
    AfterLastDotOfDotted(FileNamePrefix, stamped, dot);
    ToLowerAsciiOfLower(e);
  }

  /** A run of digits ended by `_` is read back unambiguously. */
  lemma DigitRunsDiffer(s1: string, s2: string, x1: string, x2: string)
    requires AllDigits(s1) && AllDigits(s2) && s1 != s2
    ensures s1 + "_" + x1 != s2 + "_" + x2
  {
    var a, b := s1 + "_" + x1, s2 + "_" + x2;
    if |s1| == |s2| {
      assert a[..|s1|] == s1 && b[..|s2|] == s2;
    } else if |s1| < |s2| {
      assert a[|s1|] == '_' && b[|s1|] == s2[|s1|];
    } else {
      assert b[|s2|] == '_' && a[|s2|] == s1[|s2|];
    }
  }

  lemma PrefixCancels(p: string, u: string, v: string)
    requires u != v
    ensures p + u != p + v
  {
    assert (p + u)[|p|..] == u && (p + v)[|p|..] == v;
  }

  /** Two different instants never give the same name, whatever the random
      strings: the decimal timestamp is ended by the `_` separator. */
  lemma DistinctTimestampsDistinctNames(name: string, t1: nat, t2: nat, rand1: string, rand2: string)
    requires t1 != t2
    ensures GenerateUniqueFileName(name, t1, rand1) != GenerateUniqueFileName(name, t2, rand2)
  {
    var x1, x2 := rand1 + "." + Extension(name), rand2 + "." + Extension(name);
    NatToStringInjective(t1, t2);
    DigitRunsDiffer(NatToString(t1), NatToString(t2), x1, x2);
    PrefixCancels(FileNamePrefix, NatToString(t1) + "_" + x1, NatToString(t2) + "_" + x2);
  }

  // ---------------------------------------------------------------------
  // Upload
  // ---------------------------------------------------------------------

  /** `UploadResult`. */
  datatype UploadResult = UploadResult(success: bool, url: Option<string>, error: Option<string>)

  /** `env.BASE_URL || default`: an unset or empty setting falls back. */
  function BaseUrlOrDefault(baseUrl: Option<string>): (b: string)
    ensures b != ""
    ensures baseUrl.Some? && baseUrl.value != "" ==> b == baseUrl.value
    ensures baseUrl.None? || baseUrl.value == "" ==> b == DefaultBaseUrl
  {
    if baseUrl.Some? && baseUrl.value != "" then baseUrl.value else DefaultBaseUrl
  }

  /** `uploadImage`: a refused file is answered with the check's message and
      no URL; an accepted one with the URL under which it would be stored. */
  function UploadImage(f: ImageFile, baseUrl: Option<string>, timestamp: nat, randomString: string): (r: UploadResult)
    ensures r.success <==> ValidateImageFile(f).Valid?
    ensures ValidateImageFile(f).Invalid? ==> r == UploadResult(false, None, Some(ValidateImageFile(f).error))
    ensures ValidateImageFile(f).Valid?
            ==> r.error.None?
                && r.url == Some(BaseUrlOrDefault(baseUrl) + "/"
                                 + (UploadPath + GenerateUniqueFileName(f.name, timestamp, randomString)))
  {
    match ValidateImageFile(f)
    case Invalid(error) => UploadResult(false, None, Some(error))
    case Valid =>
      var fileName := GenerateUniqueFileName(f.name, timestamp, randomString);
      var fullPath := UploadPath + fileName;
      UploadResult(true, Some(BaseUrlOrDefault(baseUrl) + "/" + fullPath), None)
  }

  /** Text in front of a string that has a dot does not change what follows
      its last dot. */
  lemma {:induction false} AfterLastDotOfDotted(p: string, s: string, dot: nat)
    requires dot < |s| && s[dot] == '.'
    ensures AfterLastDot(p + s) == AfterLastDot(s)
    decreases |s|
  {
    var ps := p + s;
    if s[|s| - 1] != '.' {
      assert ps[..|ps| - 1] == p + s[..|s| - 1];
      AfterLastDotOfDotted(p, s[..|s| - 1], dot);
    }
  }

  /** The returned URL ends in the original file's extension. */
  lemma UploadedUrlKeepsExtension(f: ImageFile, baseUrl: Option<string>, timestamp: nat, randomString: string)
    requires NoDot(randomString)
    requires ValidateImageFile(f).Valid?
    ensures var r := UploadImage(f, baseUrl, timestamp, randomString);
            r.url.Some? && AfterLastDot(r.url.value) == Extension(f.name)
  {
    var fileName := GenerateUniqueFileName(f.name, timestamp, randomString);
    GeneratedNameKeepsExtension(f.name, timestamp, randomString);
    var dot := |fileName| - |Extension(f.name)| - 1;
    assert fileName[dot] == '.';
    AfterLastDotOfDotted(UploadPath, fileName, dot);
    assert (UploadPath + fileName)[|UploadPath| + dot] == '.';
    AfterLastDotOfDotted(BaseUrlOrDefault(baseUrl) + "/", UploadPath + fileName, |UploadPath| + dot);
  }
}
