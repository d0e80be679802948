/**
 * `SafeFilename`: the file name parts derived once from a download's URL.
 * The stem of the URL path's final component has every character outside
 * `[A-Za-z0-9_.]` replaced by '_' and is cut to 32 characters; the suffix is
 * kept as it is.
 */
module SafeFilenames {
  import opened Common
  import opened SafeChars
  import opened PurePaths

  /** The longest prefix this structure produces. */
  const MaxPrefixLength := 32

  /** Replaces every disallowed character by '_', one for one. */
  function ReplaceUnsafe(s: string): (r: string)
    ensures |r| == |s| && AllSafe(r)
    ensures forall i :: 0 <= i < |s| && IsSafeChar(s[i]) ==> r[i] == s[i]
    ensures forall i :: 0 <= i < |s| && !IsSafeChar(s[i]) ==> r[i] == '_'
  {
    if s == [] then []
    else [if IsSafeChar(s[0]) then s[0] else '_'] + ReplaceUnsafe(s[1..])
  }

  /** The sanitised, truncated prefix made from a stem. */
  function SanitizePrefix(stem: string): (r: string)
    ensures AllSafe(r)
    ensures |r| == Min(|stem|, MaxPrefixLength)
    ensures forall i :: 0 <= i < |r| ==> r[i] == (if IsSafeChar(stem[i]) then stem[i] else '_')
  {
    ReplaceUnsafe(stem)[..Min(|stem|, MaxPrefixLength)]
  }

  datatype SafeFilename = SafeFilename(uri: string, prefix: string, suffix: string)

  /**
   * The constructor. `pathName` is the final component of the URL's path, as
   * urllib3's `parse_url` and `PurePath` find it; URL parsing is not part of this
   * model. `mimeType` is accepted and not used, as in the constructor it models.
   */
  function NewSafeFilename(uri: string, mimeType: string, pathName: string): (f: SafeFilename)
    ensures f.uri == uri
    ensures AllSafe(f.prefix)
    ensures |f.prefix| == Min(|Stem(pathName)|, MaxPrefixLength)
    ensures forall i :: 0 <= i < |f.prefix| && IsSafeChar(Stem(pathName)[i]) ==> f.prefix[i] == Stem(pathName)[i]
    ensures forall i :: 0 <= i < |f.prefix| && !IsSafeChar(Stem(pathName)[i]) ==> f.prefix[i] == '_'
    ensures f.suffix == Suffix(pathName)
    ensures f.prefix == "" <==> pathName == ""
  {
    SafeFilename(uri, SanitizePrefix(Stem(pathName)), Suffix(pathName))
  }

  /** A string that is already safe and short enough is its own prefix. */
  lemma SanitizeSafe(s: string)
    requires AllSafe(s) && |s| <= MaxPrefixLength
    ensures SanitizePrefix(s) == s
  {
    assert forall i :: 0 <= i < |s| ==> SanitizePrefix(s)[i] == s[i];
  }

  /** Sanitising is idempotent. */
  lemma SanitizeIdempotent(stem: string)
    ensures SanitizePrefix(SanitizePrefix(stem)) == SanitizePrefix(stem)
  {
    SanitizeSafe(SanitizePrefix(stem));
  }
}
