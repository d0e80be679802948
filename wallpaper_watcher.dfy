/**
 * The decision logic of the watcher: which targets an image offered by a post
 * is suitable for, which downloads a post schedules, and the start-up check
 * that every configured source is used and every used source is configured.
 *
 * Image sizes and ratios are exact rationals (`real`); the watcher computes
 * the image's ratio with floating-point division.
 */
module WallpaperWatcher {
  import opened Common

  /** `RedditImage`: an image a post offers. */
  datatype Image = Image(url: string, width: int, height: int)

  /** A post: its preview images (None when it has no preview) and its over-18 flag. */
  datatype Post = Post(images: Option<seq<Image>>, over18: bool)

  /**
   * A configured target: where its images go, the smallest size it takes, its
   * aspect ratio, whether it takes over-18 posts, and the sources it draws from.
   * The targets of a configuration are a dictionary keyed by name, so their names
   * are distinct; they are kept in the dictionary's order.
   */
  datatype Target = Target(name: string, path: string, width: int, height: int,
                           aspectRatio: real, allowNsfw: bool, sources: set<string>)

  /** A scheduled `do_download(url, directories, skip_existing)` call. */
  datatype Download = Download(url: string, directories: seq<string>, skipExisting: bool)

  /** The exception a division by zero raises. */
  datatype Fault = ZeroDivision

  function Abs(x: real): real
  {
    if x < 0.0 then -x else x
  }

  /** The image's aspect ratio, width over height; a zero height raises. */
  function AspectRatio(image: Image): (r: Result<real, Fault>)
    ensures r.Err? <==> image.height == 0
    ensures r.Ok? ==> r.value * image.height as real == image.width as real
  {
    if image.height == 0 then Err(ZeroDivision)
    else Ok(image.width as real / image.height as real)
  }

  /** The relative error of an image ratio against a target ratio, measured against the target's. */
  function RelativeError(aspect: real, target: real): real
    requires target != 0.0
  {
    Abs((aspect - target) / target)
  }

  /**
   * Whether an image from `sourceName` goes to target `t`. The checks run in the
   * watcher's order; the ratio check divides by the target's ratio and raises
   * when that is zero.
   */
  function Suits(image: Image, aspect: real, sourceName: string, over18: bool, tolerance: real,
                 t: Target): (r: Result<bool, Fault>)
    ensures r == Ok(true) <==>
              && sourceName in t.sources
              && image.height >= t.height && image.width >= t.width
              && t.aspectRatio != 0.0 && RelativeError(aspect, t.aspectRatio) <= tolerance
              && (over18 ==> t.allowNsfw)
    ensures r.Err? <==>
              sourceName in t.sources && image.height >= t.height && image.width >= t.width
              && t.aspectRatio == 0.0
  {
    if sourceName !in t.sources then Ok(false)
    else if image.height < t.height then Ok(false)
    else if image.width < t.width then Ok(false)
    else if t.aspectRatio == 0.0 then Err(ZeroDivision)
    else if RelativeError(aspect, t.aspectRatio) > tolerance then Ok(false)
    else if over18 && !t.allowNsfw then Ok(false)
    else Ok(true)
  }

  /** The targets an image goes to, in configuration order; the first raising check raises. */
  function Destinations(image: Image, aspect: real, sourceName: string, over18: bool, tolerance: real,
                        targets: seq<Target>): Result<seq<Target>, Fault>
    decreases |targets|
  {
    if targets == [] then Ok([])
    else
      var n := |targets| - 1;
      match Destinations(image, aspect, sourceName, over18, tolerance, targets[..n])
      case Err(f) => Err(f)
      case Ok(chosen) =>
        match Suits(image, aspect, sourceName, over18, tolerance, targets[n])
        case Err(f) => Err(f)
        case Ok(b) => Ok(if b then chosen + [targets[n]] else chosen)
  }

  /**
   * The destinations are exactly the targets the image suits, in order; and
   * choosing them raises exactly when some target reaches the ratio check with
   * a zero ratio.
   */
  lemma {:induction false} DestinationsExact(image: Image, aspect: real, sourceName: string,
                                             over18: bool, tolerance: real, targets: seq<Target>)
    ensures var r := Destinations(image, aspect, sourceName, over18, tolerance, targets);
      && (r.Err? <==> exists t :: t in targets && Suits(image, aspect, sourceName, over18, tolerance, t).Err?)
      && (r.Ok? ==> forall t :: t in r.value <==>
                      t in targets && Suits(image, aspect, sourceName, over18, tolerance, t) == Ok(true))
      && (r.Ok? ==> |r.value| <= |targets|)
    decreases |targets|
  {
    if targets != [] {
      var n := |targets| - 1;
      DestinationsExact(image, aspect, sourceName, over18, tolerance, targets[..n]);
      assert targets == targets[..n] + [targets[n]];
      assert forall t :: t in targets <==> t in targets[..n] || t == targets[n];
    }
  }

  /** Once a prefix of the targets raises, choosing among all of them raises. */
  lemma {:induction false} DestinationsPrefixRaises(image: Image, aspect: real, sourceName: string,
                                                    over18: bool, tolerance: real, targets: seq<Target>, k: nat)
    requires k <= |targets|
    requires Destinations(image, aspect, sourceName, over18, tolerance, targets[..k]).Err?
    ensures Destinations(image, aspect, sourceName, over18, tolerance, targets).Err?
    decreases |targets|
  {
    if k == |targets| {
      assert targets[..k] == targets;
    } else {
      var n := |targets| - 1;
      assert targets[..n][..k] == targets[..k];
      DestinationsPrefixRaises(image, aspect, sourceName, over18, tolerance, targets[..n], k);
    }
  }

  /** The paths of a list of targets, in order: the values of the watcher's `destinations` dictionary. */
  function PathsOf(targets: seq<Target>): (r: seq<string>)
    ensures |r| == |targets| && forall i :: 0 <= i < |r| ==> r[i] == targets[i].path
  {
    seq(|targets|, i requires 0 <= i < |targets| => targets[i].path)
  }

  /**
   * `SelectTargets` (the loop over `config.targets` in `process_post`): builds the
   * destinations of one image.
   */
  method SelectTargets(image: Image, aspect: real, sourceName: string, over18: bool, tolerance: real,
                       targets: seq<Target>) returns (r: Result<seq<Target>, Fault>)
    ensures r == Destinations(image, aspect, sourceName, over18, tolerance, targets)
  {
    var chosen := [];
    for i := 0 to |targets|
      invariant Destinations(image, aspect, sourceName, over18, tolerance, targets[..i]) == Ok(chosen)
    {
      assert targets[..i + 1][..i] == targets[..i];
      var t := targets[i];
      var verdict := Suits(image, aspect, sourceName, over18, tolerance, t);
      if verdict.Err? {
        assert targets[..i + 1][i] == t;
        assert Destinations(image, aspect, sourceName, over18, tolerance, targets[..i + 1]).Err?;
        DestinationsPrefixRaises(image, aspect, sourceName, over18, tolerance, targets, i + 1);
        assert Destinations(image, aspect, sourceName, over18, tolerance, targets).error == ZeroDivision;
        return Err(ZeroDivision);
      }
      if verdict.value {
        chosen := chosen + [t];
      }
    }
    assert targets[..|targets|] == targets;
    r := Ok(chosen);
  }

  /**
   * The download an image causes: none when it suits no target; otherwise one
   * download of its URL into the paths of exactly the targets it suits.
   */
  function ImageDownload(image: Image, sourceName: string, over18: bool, tolerance: real,
                         targets: seq<Target>, skipExisting: bool): (r: Result<Option<Download>, Fault>)
    ensures image.height == 0 ==> r == Err(ZeroDivision)
    ensures image.height != 0 ==>
              var d := Destinations(image, AspectRatio(image).value, sourceName, over18, tolerance, targets);
              && (r.Err? <==> d.Err?)
              && (r == Ok(None) <==> d == Ok([]))
              && (r.Ok? && r.value.Some? ==>
                    d.Ok? && d.value != [] && r.value.value == Download(image.url, PathsOf(d.value), skipExisting))
  {
    match AspectRatio(image)
    case Err(f) => Err(f)
    case Ok(aspect) =>
      match Destinations(image, aspect, sourceName, over18, tolerance, targets)
      case Err(f) => Err(f)
      case Ok(chosen) =>
        if chosen == [] then Ok(None) else Ok(Some(Download(image.url, PathsOf(chosen), skipExisting)))
  }

  /**
   * What processing a post leaves behind: the downloads scheduled, and the
   * exception that ended processing, if any. Downloads scheduled before the
   * exception have been started and still run.
   */
  datatype PostOutcome = PostOutcome(scheduled: seq<Download>, fault: Option<Fault>)

  /** The downloads scheduled for a post's images, in order, up to the first image that raises. */
  function Schedule(images: seq<Image>, sourceName: string, over18: bool, tolerance: real,
                    targets: seq<Target>, skipExisting: bool): PostOutcome
    decreases |images|
  {
    if images == [] then PostOutcome([], None)
    else
      var n := |images| - 1;
      var before := Schedule(images[..n], sourceName, over18, tolerance, targets, skipExisting);
      if before.fault.Some? then before
      else match ImageDownload(images[n], sourceName, over18, tolerance, targets, skipExisting)
        case Err(f) => PostOutcome(before.scheduled, Some(f))
        case Ok(None) => before
        case Ok(Some(d)) => PostOutcome(before.scheduled + [d], None)
  }

  /** Once a prefix of the images raises, the rest of the images are not looked at. */
  lemma {:induction false} SchedulePrefixRaises(images: seq<Image>, sourceName: string, over18: bool,
                                                tolerance: real, targets: seq<Target>, skipExisting: bool, k: nat)
    requires k <= |images|
    requires Schedule(images[..k], sourceName, over18, tolerance, targets, skipExisting).fault.Some?
    ensures Schedule(images, sourceName, over18, tolerance, targets, skipExisting)
            == Schedule(images[..k], sourceName, over18, tolerance, targets, skipExisting)
    decreases |images|
  {
    if k == |images| {
      assert images[..k] == images;
    } else {
      var n := |images| - 1;
      assert images[..n][..k] == images[..k];
      SchedulePrefixRaises(images[..n], sourceName, over18, tolerance, targets, skipExisting, k);
    }
  }

  /** When no image raises, every image that suits some target has its download scheduled. */
  lemma {:induction false} ScheduledComplete(images: seq<Image>, sourceName: string, over18: bool,
                                             tolerance: real, targets: seq<Target>, skipExisting: bool,
                                             i: nat, d: Download)
    requires Schedule(images, sourceName, over18, tolerance, targets, skipExisting).fault.None?
    requires i < |images|
    requires ImageDownload(images[i], sourceName, over18, tolerance, targets, skipExisting) == Ok(Some(d))
    ensures d in Schedule(images, sourceName, over18, tolerance, targets, skipExisting).scheduled
    decreases |images|
  {
    var n := |images| - 1;
    var before := Schedule(images[..n], sourceName, over18, tolerance, targets, skipExisting);
    assert before.fault.None?;
    if i < n {
      assert images[..n][i] == images[i];
      ScheduledComplete(images[..n], sourceName, over18, tolerance, targets, skipExisting, i, d);
    }
  }

  /** Every scheduled download is the download of one of the post's images. */
  lemma {:induction false} ScheduledSound(images: seq<Image>, sourceName: string, over18: bool,
                                          tolerance: real, targets: seq<Target>, skipExisting: bool, d: Download)
    requires d in Schedule(images, sourceName, over18, tolerance, targets, skipExisting).scheduled
    ensures exists i :: 0 <= i < |images|
              && ImageDownload(images[i], sourceName, over18, tolerance, targets, skipExisting) == Ok(Some(d))
    decreases |images|
  {
    var n := |images| - 1;
    var before := Schedule(images[..n], sourceName, over18, tolerance, targets, skipExisting);
    if d in before.scheduled {
      ScheduledSound(images[..n], sourceName, over18, tolerance, targets, skipExisting, d);
      var i :| 0 <= i < n
               && ImageDownload(images[..n][i], sourceName, over18, tolerance, targets, skipExisting) == Ok(Some(d));
      assert images[..n][i] == images[i];
    } else {
      assert ImageDownload(images[n], sourceName, over18, tolerance, targets, skipExisting) == Ok(Some(d));
    }
  }

  /**
   * `process_post`: a post without a preview schedules nothing; otherwise each
   * image's download is scheduled in turn, and the first exception ends the
   * processing.
   */
  method ProcessPost(post: Post, sourceName: string, tolerance: real, targets: seq<Target>,
                     skipExisting: bool) returns (r: PostOutcome)
    ensures post.images.None? ==> r == PostOutcome([], None)
    ensures post.images.Some? ==>
              r == Schedule(post.images.value, sourceName, post.over18, tolerance, targets, skipExisting)
  {
    if post.images.None? {
      return PostOutcome([], None);
    }
    var images := post.images.value;
    var downloads := [];
    for i := 0 to |images|
      invariant Schedule(images[..i], sourceName, post.over18, tolerance, targets, skipExisting)
                == PostOutcome(downloads, None)
    {
      assert images[..i + 1][..i] == images[..i];
      var image := images[i];
      var aspect := AspectRatio(image);
      if aspect.Err? {
        SchedulePrefixRaises(images, sourceName, post.over18, tolerance, targets, skipExisting, i + 1);
        return PostOutcome(downloads, Some(aspect.error));
      }
      var destinations := SelectTargets(image, aspect.value, sourceName, post.over18, tolerance, targets);
      if destinations.Err? {
        SchedulePrefixRaises(images, sourceName, post.over18, tolerance, targets, skipExisting, i + 1);
        return PostOutcome(downloads, Some(destinations.error));
      }
      if destinations.value != [] {
        downloads := downloads + [Download(image.url, PathsOf(destinations.value), skipExisting)];
      }
    }
    assert images[..|images|] == images;
    r := PostOutcome(downloads, None);
  }

  /**
   * A boundary example: a 1920x1080 target with ratio 16/9 and a 2% tolerance
   * takes a 1920x1080 image, and neither a 1919x1080 nor a 2560x1080 one; nor
   * an over-18 post, nor an image from a source the target does not follow.
   */
  lemma SuitabilityBoundary()
    ensures var t := Target("desktop", "walls", 1920, 1080, 16.0 / 9.0, false, {"wallpapers"});
      && Suits(Image("a", 1920, 1080), 1920.0 / 1080.0, "wallpapers", false, 0.02, t) == Ok(true)
      && Suits(Image("b", 1919, 1080), 1919.0 / 1080.0, "wallpapers", false, 0.02, t) == Ok(false)
      && Suits(Image("c", 2560, 1080), 2560.0 / 1080.0, "wallpapers", false, 0.02, t) == Ok(false)
      && Suits(Image("a", 1920, 1080), 1920.0 / 1080.0, "wallpapers", true, 0.02, t) == Ok(false)
      && Suits(Image("a", 1920, 1080), 1920.0 / 1080.0, "pics", false, 0.02, t) == Ok(false)
  {
    assert RelativeError(1920.0 / 1080.0, 16.0 / 9.0) == 0.0;
    assert RelativeError(2560.0 / 1080.0, 16.0 / 9.0) == 1.0 / 3.0;
  }

  // ---------------------------------------------------------------------------
  // Start-up check of the sources
  // ---------------------------------------------------------------------------

  datatype ConfigError =
    | NoSources                                            // neither subreddits nor multis declared
    | UnknownSources(target: string, missing: set<string>) // a target uses undeclared sources
    | UnusedSources(unused: set<string>)                   // declared sources no target uses

  /** The sources the targets use between them. */
  function UsedSources(targets: seq<Target>): set<string>
    decreases |targets|
  {
    if targets == [] then {} else UsedSources(targets[..|targets| - 1]) + targets[|targets| - 1].sources
  }

  lemma {:induction false} UsedSourcesMembers(targets: seq<Target>)
    ensures forall s :: s in UsedSources(targets) <==> exists t :: t in targets && s in t.sources
    decreases |targets|
  {
    if targets != [] {
      var n := |targets| - 1;
      UsedSourcesMembers(targets[..n]);
      assert targets == targets[..n] + [targets[n]];
      assert forall t :: t in targets <==> t in targets[..n] || t == targets[n];
    }
  }

  /** The position of the first target that uses an undeclared source. */
  function FirstUnknown(targets: seq<Target>, declared: set<string>): (r: Option<nat>)
    ensures r.Some? ==> r.value < |targets| && !(targets[r.value].sources <= declared)
                        && forall j :: 0 <= j < r.value ==> targets[j].sources <= declared
    ensures r.None? ==> forall j :: 0 <= j < |targets| ==> targets[j].sources <= declared
  {
    if targets == [] then None
    else if !(targets[0].sources <= declared) then Some(0)
    else match FirstUnknown(targets[1..], declared)
      case Some(k) => Some(k + 1)
      case None => None
  }

  /**
   * `check_for_missing_and_orphan_sources`: fails when no source is declared,
   * then at the first target that uses an undeclared source, then when some
   * declared source is used by no target.
   */
  method CheckSources(subreddits: set<string>, multis: set<string>, targets: seq<Target>)
    returns (r: Outcome<ConfigError>)
    ensures subreddits + multis == {} ==> r == Fail(NoSources)
    ensures subreddits + multis != {} && FirstUnknown(targets, subreddits + multis).Some? ==>
              var k := FirstUnknown(targets, subreddits + multis).value;
              r == Fail(UnknownSources(targets[k].name, targets[k].sources - (subreddits + multis)))
    ensures subreddits + multis != {} && FirstUnknown(targets, subreddits + multis).None? ==>
              var unused := subreddits + multis - UsedSources(targets);
              r == if unused == {} then Pass else Fail(UnusedSources(unused))
  {
    var loaded: set<string> := {};
    if subreddits != {} {
      loaded := loaded + subreddits;
    }
    if multis != {} {
      loaded := loaded + multis;
    }
    if |loaded| < 1 {
      return Fail(NoSources);
    }
    var unused := loaded;
    for i := 0 to |targets|
      invariant unused == loaded - UsedSources(targets[..i])
      invariant forall j :: 0 <= j < i ==> targets[j].sources <= loaded
    {
      assert targets[..i + 1][..i] == targets[..i];
      if !(targets[i].sources <= loaded) {
        return Fail(UnknownSources(targets[i].name, targets[i].sources - loaded));
      }
      unused := unused - targets[i].sources;
    }
    assert targets[..|targets|] == targets;
    if unused != {} {
      return Fail(UnusedSources(unused));
    }
    return Pass;
  }

  /**
   * The check passes exactly when some source is declared and the declared
   * sources are exactly the sources the targets use.
   */
  lemma {:induction false} CheckPassesExactly(subreddits: set<string>, multis: set<string>,
                                              targets: seq<Target>)
    ensures var declared := subreddits + multis;
            FirstUnknown(targets, declared).None? && declared - UsedSources(targets) == {}
            <==> declared == UsedSources(targets)
  {
    var declared := subreddits + multis;
    var used := UsedSources(targets);
    UsedSourcesMembers(targets);
    if FirstUnknown(targets, declared).None? {
      forall s | s in used ensures s in declared {
        var t :| t in targets && s in t.sources;
        var j :| 0 <= j < |targets| && targets[j] == t;
      }
      assert used <= declared;
      if declared - used == {} {
        forall s | s in declared ensures s in used {
          assert s !in declared - used;
        }
        assert declared == used;
      }
    }
    if declared == used {
      forall j, s | 0 <= j < |targets| && s in targets[j].sources ensures s in declared {
        assert targets[j] in targets;
      }
      assert forall j :: 0 <= j < |targets| ==> targets[j].sources <= declared;
    }
  }

}
