/**
 * The split of a path's final component into stem and suffix, as Python's
 * `PurePath.stem` and `PurePath.suffix` compute it: the suffix starts at the
 * last '.', provided that dot is neither the first nor the last character.
 */
module PurePaths {
  import opened Common

  /** Position of the last '.' in `name`, if there is one. */
  function LastDot(name: string): (r: Option<nat>)
    ensures r.Some? ==> r.value < |name| && name[r.value] == '.'
    ensures r.Some? ==> forall j :: r.value < j < |name| ==> name[j] != '.'
    ensures r.None? ==> forall j :: 0 <= j < |name| ==> name[j] != '.'
  {
    if |name| == 0 then None
    else if name[|name| - 1] == '.' then Some(|name| - 1)
    else LastDot(name[..|name| - 1])
  }

  /** Where the suffix starts, when `name` has one. */
  function SuffixStart(name: string): Option<nat>
  {
    match LastDot(name)
    case Some(i) => if 0 < i < |name| - 1 then Some(i) else None
    case None => None
  }

  /** A well-formed suffix: a dot followed by at least one character and no further dot. */
  predicate IsExtension(ext: string)
  {
    |ext| >= 2 && ext[0] == '.' && forall j :: 1 <= j < |ext| ==> ext[j] != '.'
  }

  function Suffix(name: string): (r: string)
    ensures r == "" || IsExtension(r)
    ensures |r| <= |name| && r == name[|name| - |r|..]
  {
    match SuffixStart(name)
    case Some(i) => name[i..]
    case None => ""
  }

  function Stem(name: string): (r: string)
    ensures r == name[..|name| - |Suffix(name)|]
    ensures Suffix(name) != "" ==> r != ""
  {
    match SuffixStart(name)
    case Some(i) => name[..i]
    case None => name
  }

  /** Appending an extension to a non-empty stem, and splitting the result again,
      gives back the stem and the extension. */
  lemma {:induction false} SplitJoined(stem: string, ext: string)
    requires stem != ""
    requires IsExtension(ext)
    ensures Suffix(stem + ext) == ext
    ensures Stem(stem + ext) == stem
  {
    LastDotOfJoined(stem, ext);
  }

  lemma {:induction false} LastDotOfJoined(stem: string, ext: string)
    requires |ext| >= 1 && ext[0] == '.'
    requires forall j :: 1 <= j < |ext| ==> ext[j] != '.'
    ensures LastDot(stem + ext) == Some(|stem|)
    decreases |ext|
  {
    var name := stem + ext;
    if |ext| == 1 {
      assert name[|name| - 1] == '.';
    } else {
      assert name[|name| - 1] != '.';
      assert name[..|name| - 1] == stem + ext[..|ext| - 1];
      LastDotOfJoined(stem, ext[..|ext| - 1]);
    }
  }
}

/** The characters a derived file name may contain: `[A-Za-z0-9_.]`. */
module SafeChars {

  predicate IsSafeChar(c: char)
  {
    ('A' <= c <= 'Z') || ('a' <= c <= 'z') || ('0' <= c <= '9') || c == '_' || c == '.'
  }

  predicate AllSafe(s: string)
  {
    forall i :: 0 <= i < |s| ==> IsSafeChar(s[i])
  }
}
