/**
 * The placement half of the downloader: the file name derived from an image's
 * URL and content type, and the copy of a downloaded file into every
 * destination directory without overwriting anything already there.
 *
 * The filesystem is the finite set of locations that exist. A copy adds its
 * target location to that set; creating the directory is not modelled, since
 * it changes no file.
 */
module Downloader {
  import opened Common
  import opened Decimal
  import opened SafeChars
  import opened PurePaths

  // ---------------------------------------------------------------------------
  // File name derivation
  // ---------------------------------------------------------------------------

  /** The longest prefix the downloader derives. */
  const MaxPrefixLength := 128

  /** The extension used for a file without one, by its Content-Type. */
  const KnownTypes: map<string, string> := map[
    "image/jpeg" := ".jpg",
    "image/png" := ".png",
    "image/gif" := ".gif",
    "image/webp" := ".webp",
    "image/svg+xml" := ".svg",
    "image/x-icon" := ".ico",
    "image/bmp" := ".bmp",
    "image/apng" := ".apng"
  ]

  /** Deletes every character outside `[A-Za-z0-9_.]`, keeping the others in order. */
  function DeleteUnsafe(s: string): (r: string)
    ensures AllSafe(r) && |r| <= |s|
  {
    if s == [] then []
    else (if IsSafeChar(s[0]) then [s[0]] else []) + DeleteUnsafe(s[1..])
  }

  /** Deleting distributes over concatenation: each character is kept or dropped on its own. */
  lemma {:induction false} DeleteUnsafeAppend(a: string, b: string)
    ensures DeleteUnsafe(a + b) == DeleteUnsafe(a) + DeleteUnsafe(b)
  {
    if a == [] {
      assert a + b == b;
    } else {
      assert (a + b)[0] == a[0];
      assert (a + b)[1..] == a[1..] + b;
      DeleteUnsafeAppend(a[1..], b);
    }
  }

  /** A disallowed character contributes nothing, wherever it stands. */
  lemma DeleteUnsafeDropsUnsafe(a: string, c: char, b: string)
    requires !IsSafeChar(c)
    ensures DeleteUnsafe(a + [c] + b) == DeleteUnsafe(a + b)
  {
    DeleteUnsafeAppend(a + [c], b);
    DeleteUnsafeAppend(a, [c]);
    DeleteUnsafeAppend(a, b);
    assert DeleteUnsafe([c]) == [];
  }

  /** An allowed character is kept, in its place between what precedes and what follows it. */
  lemma DeleteUnsafeKeepsSafe(a: string, c: char, b: string)
    requires IsSafeChar(c)
    ensures DeleteUnsafe(a + [c] + b) == DeleteUnsafe(a) + [c] + DeleteUnsafe(b)
  {
    DeleteUnsafeAppend(a + [c], b);
    DeleteUnsafeAppend(a, [c]);
    assert DeleteUnsafe([c]) == [c] by {
      assert [c][1..] == [];
    }
  }

  /** A string with nothing to delete is left as it is, and only such a string. */
  lemma {:induction false} DeleteUnsafeFixed(s: string)
    ensures DeleteUnsafe(s) == s <==> AllSafe(s)
  {
    if s != [] {
      DeleteUnsafeFixed(s[1..]);
      if !IsSafeChar(s[0]) {
        assert |DeleteUnsafe(s)| < |s|;
      }
    }
  }

  /** The prefix made from a URL path's stem: its safe characters, at most 128 of them. */
  function DerivePrefix(stem: string): (r: string)
    ensures AllSafe(r) && |r| <= MaxPrefixLength
    ensures |r| == Min(|DeleteUnsafe(stem)|, MaxPrefixLength)
    ensures r <= DeleteUnsafe(stem)
  {
    DeleteUnsafe(stem)[..Min(|DeleteUnsafe(stem)|, MaxPrefixLength)]
  }

  /** Deriving a prefix from a derived prefix changes nothing. */
  lemma DerivePrefixIdempotent(stem: string)
    ensures DerivePrefix(DerivePrefix(stem)) == DerivePrefix(stem)
  {
    DeleteUnsafeFixed(DerivePrefix(stem));
  }

  /** The Content-Type of a response, or "" when it has none. */
  function ContentTypeOf(headers: map<string, string>): (r: string)
    ensures "Content-Type" in headers ==> r == headers["Content-Type"]
    ensures "Content-Type" !in headers ==> r == ""
  {
    if "Content-Type" in headers then headers["Content-Type"] else ""
  }

  /**
   * The suffix of the saved file: the URL path's own suffix when it has one;
   * otherwise the extension listed for the content type; otherwise none.
   */
  function ChooseSuffix(pathSuffix: string, contentType: string): (r: string)
    ensures pathSuffix != "" ==> r == pathSuffix
    ensures pathSuffix == "" && contentType in KnownTypes ==> r == KnownTypes[contentType]
    ensures pathSuffix == "" && contentType !in KnownTypes ==> r == ""
  {
    if pathSuffix != "" then pathSuffix
    else if contentType in KnownTypes then KnownTypes[contentType]
    else ""
  }

  /** Every extension in the table is a suffix `PurePath` recognises. */
  lemma KnownTypesAreExtensions()
    ensures forall t :: t in KnownTypes ==> IsExtension(KnownTypes[t])
  {
  }

  /**
   * When a suffix was found, whether from the URL path or from the table, a file
   * saved as a non-empty stem followed by that suffix reads back with the same
   * stem and suffix.
   */
  lemma ChosenSuffixReadsBack(stem: string, pathName: string, contentType: string)
    requires stem != ""
    requires ChooseSuffix(Suffix(pathName), contentType) != ""
    ensures var ext := ChooseSuffix(Suffix(pathName), contentType);
            Suffix(stem + ext) == ext && Stem(stem + ext) == stem
  {
    KnownTypesAreExtensions();
    SplitJoined(stem, ChooseSuffix(Suffix(pathName), contentType));
  }

  // ---------------------------------------------------------------------------
  // Collision-free placement
  // ---------------------------------------------------------------------------

  /** A file `name` inside directory `dir`. */
  datatype Location = Location(dir: string, name: string)

  /** The name tried on the `n`-th collision: `prefix (n)suffix`. */
  function NumberedName(prefix: string, n: nat, suffix: string): string
  {
    prefix + " (" + NatToString(n) + ")" + suffix
  }

  lemma NumberedNameInjective(prefix: string, m: nat, n: nat, suffix: string)
    requires NumberedName(prefix, m, suffix) == NumberedName(prefix, n, suffix)
    ensures m == n
  {
    var a, b := NumberedName(prefix, m, suffix), NumberedName(prefix, n, suffix);
    var k, l := |prefix| + 2, |NatToString(m)|;
    assert |NatToString(n)| == l;
    assert a[k..k + l] == NatToString(m);
    assert b[k..k + l] == NatToString(n);
    NatToStringInjective(m, n);
  }

  /** The numbered locations probed before the `count`-th: those for 1 .. count - 1. */
  function Probed(dir: string, prefix: string, suffix: string, count: nat): set<Location>
  {
    set k: nat | 1 <= k < count :: Location(dir, NumberedName(prefix, k, suffix))
  }

  lemma {:induction false} ProbedSize(dir: string, prefix: string, suffix: string, count: nat)
    requires count >= 1
    ensures |Probed(dir, prefix, suffix, count)| == count - 1
  {
    if count > 1 {
      var c := count - 1;
      var next := Location(dir, NumberedName(prefix, c, suffix));
      assert Probed(dir, prefix, suffix, count) == Probed(dir, prefix, suffix, c) + {next};
      if next in Probed(dir, prefix, suffix, c) {
        var k: nat :| 1 <= k < c && Location(dir, NumberedName(prefix, k, suffix)) == next;
        NumberedNameInjective(prefix, k, c, suffix);
      }
      ProbedSize(dir, prefix, suffix, c);
    }
  }

  /** Every probed name already exists, so no more names can be probed than files exist. */
  lemma ProbedBound(fs: set<Location>, dir: string, prefix: string, suffix: string, count: nat)
    requires count >= 1 && Probed(dir, prefix, suffix, count) <= fs
    ensures count <= |fs| + 1
  {
    ProbedSize(dir, prefix, suffix, count);
    SubsetSize(Probed(dir, prefix, suffix, count), fs);
  }

  lemma SubsetSize<T>(a: set<T>, b: set<T>)
    requires a <= b
    ensures |a| <= |b|
  {
    assert b == a + (b - a);
  }

  /** `n` is the smallest index ≥ 1 whose numbered name is free in `dir`. */
  predicate IsFirstFree(fs: set<Location>, dir: string, prefix: string, suffix: string, n: nat)
  {
    n >= 1 && Location(dir, NumberedName(prefix, n, suffix)) !in fs
    && Probed(dir, prefix, suffix, n) <= fs
  }

  lemma FirstFreeUnique(fs: set<Location>, dir: string, prefix: string, suffix: string, m: nat, n: nat)
    requires IsFirstFree(fs, dir, prefix, suffix, m) && IsFirstFree(fs, dir, prefix, suffix, n)
    ensures m == n
  {
  }

  /** The probe: the first free numbered name from `count` on. It exists for every finite `fs`. */
  function FreeSlot(fs: set<Location>, dir: string, prefix: string, suffix: string, count: nat): (n: nat)
    requires count >= 1 && Probed(dir, prefix, suffix, count) <= fs
    ensures n >= count && IsFirstFree(fs, dir, prefix, suffix, n)
    decreases |fs| + 1 - count
  {
    var here := Location(dir, NumberedName(prefix, count, suffix));
    if here in fs then
      assert Probed(dir, prefix, suffix, count + 1) == Probed(dir, prefix, suffix, count) + {here};
      ProbedBound(fs, dir, prefix, suffix, count + 1);
      FreeSlot(fs, dir, prefix, suffix, count + 1)
    else
      count
  }

  /**
   * A name that, joined to a directory, denotes a directory that exists: the
   * empty name and "." denote the directory itself (which the copy has just
   * created), ".." its parent.
   */
  predicate NamesDirectory(name: string)
  {
    name == "" || name == "." || name == ".."
  }

  /** Whether `location.exists()` holds: a file is there, or the name denotes a directory. */
  predicate Exists(fs: set<Location>, l: Location)
  {
    l in fs || NamesDirectory(l.name)
  }

  /** A numbered name is never one that denotes a directory. */
  lemma NumberedNameIsFile(prefix: string, n: nat, suffix: string)
    ensures !NamesDirectory(NumberedName(prefix, n, suffix))
  {
    assert |NumberedName(prefix, n, suffix)| >= 4;
  }

  /**
   * Where one directory's copy goes: the plain name `prefix + suffix` when
   * nothing exists there; nothing when something does and existing files are
   * to be skipped; otherwise the first free numbered name.
   */
  function PlaceOne(fs: set<Location>, dir: string, prefix: string, suffix: string,
                    skipExisting: bool): (r: Option<Location>)
    ensures r.Some? ==> r.value !in fs && r.value.dir == dir && !NamesDirectory(r.value.name)
    ensures r.None? <==> skipExisting && Exists(fs, Location(dir, prefix + suffix))
    ensures !Exists(fs, Location(dir, prefix + suffix)) ==> r == Some(Location(dir, prefix + suffix))
    ensures Exists(fs, Location(dir, prefix + suffix)) && !skipExisting ==>
              exists n :: IsFirstFree(fs, dir, prefix, suffix, n)
                          && r == Some(Location(dir, NumberedName(prefix, n, suffix)))
  {
    var plain := Location(dir, prefix + suffix);
    if !Exists(fs, plain) then Some(plain)
    else if skipExisting then None
    else
      var n := FreeSlot(fs, dir, prefix, suffix, 1);
      NumberedNameIsFile(prefix, n, suffix);
      Some(Location(dir, NumberedName(prefix, n, suffix)))
  }

  /** The directories of a list of locations, in order. */
  function DirsOf(locations: seq<Location>): (r: seq<string>)
    ensures |r| == |locations|
    ensures forall i :: 0 <= i < |r| ==> r[i] == locations[i].dir
  {
    if locations == [] then [] else [locations[0].dir] + DirsOf(locations[1..])
  }

  /** `a` is `b` with some elements left out (order kept). */
  predicate IsSubsequence(a: seq<string>, b: seq<string>)
    decreases |b|
  {
    a == [] || (b != [] && ((a[0] == b[0] && IsSubsequence(a[1..], b[1..])) || IsSubsequence(a, b[1..])))
  }

  /** The copy into every directory in turn: the locations copied to and the filesystem afterwards. */
  function Placement(fs: set<Location>, dirs: seq<string>, prefix: string, suffix: string,
                     skipExisting: bool): (r: (seq<Location>, set<Location>))
    decreases |dirs|
  {
    if dirs == [] then ([], fs)
    else match PlaceOne(fs, dirs[0], prefix, suffix, skipExisting)
      case None =>
        Placement(fs, dirs[1..], prefix, suffix, skipExisting)
      case Some(l) =>
        var rest := Placement(fs + {l}, dirs[1..], prefix, suffix, skipExisting);
        ([l] + rest.0, rest.1)
  }

  /**
   * Placement never overwrites: no chosen location existed before, none
   * denotes a directory and none is chosen twice; the filesystem afterwards is the old one plus the copies.
   * Each directory contributes at most one location, in directory order, and
   * exactly one when existing files are not skipped.
   */
  lemma {:induction false} PlacementSafe(fs: set<Location>, dirs: seq<string>, prefix: string,
                                         suffix: string, skipExisting: bool)
    ensures var r := Placement(fs, dirs, prefix, suffix, skipExisting);
      && (forall i :: 0 <= i < |r.0| ==> r.0[i] !in fs && !NamesDirectory(r.0[i].name))
      && (forall i, j :: 0 <= i < j < |r.0| ==> r.0[i] != r.0[j])
      && (forall l :: l in r.1 <==> l in fs || l in r.0)
      && IsSubsequence(DirsOf(r.0), dirs)
      && (!skipExisting ==> DirsOf(r.0) == dirs)
    decreases |dirs|
  {
    if dirs != [] {
      match PlaceOne(fs, dirs[0], prefix, suffix, skipExisting)
      case None =>
        PlacementSafe(fs, dirs[1..], prefix, suffix, skipExisting);
      case Some(l) =>
        PlacementSafe(fs + {l}, dirs[1..], prefix, suffix, skipExisting);
        var rest := Placement(fs + {l}, dirs[1..], prefix, suffix, skipExisting);
        assert DirsOf([l] + rest.0)[1..] == DirsOf(rest.0);
        assert ([l] + rest.0)[1..] == rest.0;
    }
  }

  /** The probe loop of `copy_to_destinations`: tries `prefix (n)suffix` for n = 1, 2, ... */
  method ProbeFreeName(fs: set<Location>, dir: string, prefix: string, suffix: string)
    returns (location: Location)
    ensures location == Location(dir, NumberedName(prefix, FreeSlot(fs, dir, prefix, suffix, 1), suffix))
  {
    var count := 1;
    while true
      invariant 1 <= count <= |fs| + 1
      invariant Probed(dir, prefix, suffix, count) <= fs
      invariant FreeSlot(fs, dir, prefix, suffix, count) == FreeSlot(fs, dir, prefix, suffix, 1)
      decreases |fs| + 1 - count
    {
      location := Location(dir, NumberedName(prefix, count, suffix));
      NumberedNameIsFile(prefix, count, suffix);
      if !Exists(fs, location) {
        return;
      }
      assert Probed(dir, prefix, suffix, count + 1) == Probed(dir, prefix, suffix, count) + {location};
      ProbedBound(fs, dir, prefix, suffix, count + 1);
      count := count + 1;
    }
  }

  /**
   * `copy_to_destinations`: copies the downloaded file into each directory,
   * probing `prefix (n)suffix` for n = 1, 2, ... when the plain name is taken.
   */
  method CopyToDestinations(fs: set<Location>, dirs: seq<string>, prefix: string, suffix: string,
                            skipExisting: bool)
    returns (locations: seq<Location>, after: set<Location>)
    ensures (locations, after) == Placement(fs, dirs, prefix, suffix, skipExisting)
  {
    locations, after := [], fs;
    assert dirs[0..] == dirs;
    assert Placement(fs, dirs, prefix, suffix, skipExisting).0
        == locations + Placement(after, dirs[0..], prefix, suffix, skipExisting).0;
    for i := 0 to |dirs|
      invariant var whole, rest := Placement(fs, dirs, prefix, suffix, skipExisting),
                                   Placement(after, dirs[i..], prefix, suffix, skipExisting);
                whole.0 == locations + rest.0 && whole.1 == rest.1
    {
      assert dirs[i..][1..] == dirs[i + 1..];
      var dir := dirs[i];
      var location := Location(dir, prefix + suffix);
      if Exists(after, location) {
        if skipExisting {
          continue;
        }
        location := ProbeFreeName(after, dir, prefix, suffix);
      }
      // The copy creates the file at `location`.
      after := after + {location};
      locations := locations + [location];
    }
    assert dirs[|dirs|..] == [];
    assert locations + [] == locations;
  }

  /**
   * The placement step of `download_image`: derive the prefix and the suffix,
   * then copy the downloaded file. The fetch into the temporary file is not
   * modelled; `headers` are the response's headers and `pathName` is the final
   * component of the URL's path.
   */
  method DownloadImage(fs: set<Location>, dirs: seq<string>, pathName: string,
                       headers: map<string, string>, skipExisting: bool)
    returns (locations: seq<Location>, after: set<Location>)
    ensures (locations, after) == Placement(fs, dirs, DerivePrefix(Stem(pathName)),
                                            ChooseSuffix(Suffix(pathName), ContentTypeOf(headers)),
                                            skipExisting)
    ensures forall i :: 0 <= i < |locations| ==> locations[i] !in fs && !NamesDirectory(locations[i].name)
    ensures !skipExisting ==> |locations| == |dirs|
  {
    var prefix := DerivePrefix(Stem(pathName));
    var suffix := Suffix(pathName);
    if suffix == "" {
      suffix := ChooseSuffix(suffix, ContentTypeOf(headers));
    }
    locations, after := CopyToDestinations(fs, dirs, prefix, suffix, skipExisting);
    PlacementSafe(fs, dirs, prefix, suffix, skipExisting);
  }

  /** Two colliding copies of `photo.jpg` into one directory become `photo (1).jpg` and `photo (2).jpg`. */
  lemma CollidingCopies()
    ensures var d := "wallpapers";
            var first := Placement({Location(d, "photo.jpg")}, [d], "photo", ".jpg", false);
            var second := Placement(first.1, [d], "photo", ".jpg", false);
            first.0 == [Location(d, "photo (1).jpg")] && second.0 == [Location(d, "photo (2).jpg")]
  {
    var d := "wallpapers";
    var fs := {Location(d, "photo.jpg")};
    assert NumberedName("photo", 1, ".jpg") == "photo (1).jpg";
    assert NumberedName("photo", 2, ".jpg") == "photo (2).jpg";
    assert Location(d, "photo (1).jpg") !in fs;
    assert FreeSlot(fs, d, "photo", ".jpg", 1) == 1;
    assert [d][1..] == [];
    assert "photo" + ".jpg" == "photo.jpg";
    assert PlaceOne(fs, d, "photo", ".jpg", false) == Some(Location(d, "photo (1).jpg"));
    var fs2 := fs + {Location(d, "photo (1).jpg")};
    assert Placement(fs, [d], "photo", ".jpg", false).1 == fs2;
    assert Location(d, "photo (2).jpg") !in fs2;
    assert FreeSlot(fs2, d, "photo", ".jpg", 2) == 2;
    assert FreeSlot(fs2, d, "photo", ".jpg", 1) == 2;
    assert PlaceOne(fs2, d, "photo", ".jpg", false) == Some(Location(d, "photo (2).jpg"));
  }
}
