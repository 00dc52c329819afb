/** `downloadMedia` and `mapMediaToNodes`: attach a downloaded local file to every image of a
    node, reusing the file recorded in the host's cache while the node's `modified` stamp is
    unchanged. The host's cache, its `touchNode` and the remote-file fetcher are modelled by a
    `Host` object that records what was asked of it; what each fetch yields is a parameter. */
module Media {
  import opened Js
  import opened Graph

  /** What the cache keeps per media item: `{ fileNodeID, modified }`. */
  datatype CacheRecord = CacheRecord(fileNodeID: NodeId, modified: Option<string>)

  /** What happens to one fetch request: the fetcher yields a file node with that id and the
      cache records it; it yields a file node but writing the cache record then throws (inside
      the same `try`, so the error is swallowed after the id was taken); it yields a falsy
      value; or it throws (the error is swallowed). */
  datatype FetchOutcome = Fetched(id: NodeId) | FetchedNotCached(id: NodeId) | NullResult | Threw

  /** The arguments of one fetch that vary: the file's URL and the owning node's id. */
  datatype FetchRequest = FetchRequest(url: string, parentNodeId: NodeId)

  /** The host as seen by the helpers: the cache, the ids passed to `touchNode`, in order, and
      the fetches asked for, in order. */
  datatype MediaState = MediaState(cache: map<string, CacheRecord>, touched: seq<NodeId>, fetches: seq<FetchRequest>)

  /** The host after one `downloadMedia`, and the file node id it settled on ("" when none). */
  datatype Resolution = Resolution(after: MediaState, link: NodeId)

  class Host {
    var cache: map<string, CacheRecord>
    var touched: seq<NodeId>
    var fetches: seq<FetchRequest>

    function State(): MediaState
      reads this
    {
      MediaState(cache, touched, fetches)
    }
  }

  /** `wordpress-media-${image.id}`. */
  function MediaCacheKey(id: Value): string {
    "wordpress-media-" + Text(id)
  }

  /** Media items with different numeric ids have different cache entries. */
  lemma MediaCacheKeyInjective(a: int, b: int)
    ensures MediaCacheKey(Num(a)) == MediaCacheKey(Num(b)) ==> a == b
  {
    var prefix := "wordpress-media-";
    if MediaCacheKey(Num(a)) == MediaCacheKey(Num(b)) {
      assert Decimal(a) == MediaCacheKey(Num(a))[|prefix|..];
      assert Decimal(b) == MediaCacheKey(Num(b))[|prefix|..];
      DecimalInjective(a, b);
    }
  }

  /** The cache holds a usable file for this image of this node: an entry recorded under the
      same `modified` stamp, with a truthy file node id. */
  predicate Warm(cache: map<string, CacheRecord>, n: Node, image: Image) {
    var key := MediaCacheKey(image.id);
    key in cache && cache[key].modified == n.modified && cache[key].fileNodeID != ""
  }

  /** `downloadMedia` for image `image` of node `n`, when a fetch would have outcome `outcome`:
      a cache entry with the node's stamp is touched and, if it names a file, used; otherwise
      the file is fetched and, when the fetch yields a node, recorded in the cache. */
  function Resolve(s: MediaState, n: Node, image: Image, outcome: FetchOutcome): (r: Resolution)
    ensures forall k :: k in s.cache && k != MediaCacheKey(image.id) ==> k in r.after.cache && r.after.cache[k] == s.cache[k]
    ensures r.after.cache.Keys <= s.cache.Keys + {MediaCacheKey(image.id)}
    ensures r.link != "" ==>
      (MediaCacheKey(image.id) in r.after.cache &&
       r.after.cache[MediaCacheKey(image.id)] == CacheRecord(r.link, n.modified)) ||
      (outcome == FetchedNotCached(r.link) && r.after.cache == s.cache)
    ensures r.after.fetches == s.fetches || r.after.fetches == s.fetches + [FetchRequest(image.src, n.id)]
    ensures r.after.touched == s.touched ||
      (MediaCacheKey(image.id) in s.cache && r.after.touched == s.touched + [s.cache[MediaCacheKey(image.id)].fileNodeID])
  {
    var key := MediaCacheKey(image.id);
    var hit := key in s.cache && s.cache[key].modified == n.modified;
    var cached := if hit then s.cache[key].fileNodeID else "";
    var touched := if hit then s.touched + [cached] else s.touched;
    if cached != "" then Resolution(s.(touched := touched), cached)
    else
      var fetched := s.(touched := touched, fetches := s.fetches + [FetchRequest(image.src, n.id)]);
      match outcome
      case Fetched(id) => Resolution(fetched.(cache := fetched.cache[key := CacheRecord(id, n.modified)]), id)
      case FetchedNotCached(id) => Resolution(fetched, id)
      case NullResult => Resolution(fetched, "")
      case Threw => Resolution(fetched, "")
  }

  /** `downloadMedia({ n, image, ... })`, where `outcome` is what the fetcher does if asked. */
  method DownloadMedia(host: Host, n: Node, image: Image, outcome: FetchOutcome)
    modifies host, image
    ensures host.State() == Resolve(old(host.State()), n, image, outcome).after
    ensures image.localFile == (var link := Resolve(old(host.State()), n, image, outcome).link;
                                if link != "" then Some(link) else old(image.localFile))
  {
    // `let fileNodeID` starts out undefined, which is falsy like ""
    var fileNodeID: NodeId := "";
    var key := MediaCacheKey(image.id);
    if key in host.cache && n.modified == host.cache[key].modified {
      fileNodeID := host.cache[key].fileNodeID;
      host.touched := host.touched + [fileNodeID];
    }
    if fileNodeID == "" {
      host.fetches := host.fetches + [FetchRequest(image.src, n.id)];
      match outcome {
        case Fetched(id) =>
          fileNodeID := id;
          host.cache := host.cache[key := CacheRecord(fileNodeID, n.modified)];
        case FetchedNotCached(id) =>
          fileNodeID := id;
        case NullResult =>
        case Threw =>
      }
    }
    if fileNodeID != "" {
      image.localFile := Some(fileNodeID);
    }
  }

  /** A warm entry is used as it is: its file is linked and touched, nothing is fetched and the
      cache is left alone. */
  lemma ResolveHit(s: MediaState, n: Node, image: Image, outcome: FetchOutcome)
    requires Warm(s.cache, n, image)
    ensures var id := s.cache[MediaCacheKey(image.id)].fileNodeID;
      Resolve(s, n, image, outcome) == Resolution(s.(touched := s.touched + [id]), id)
  {
  }

  /** Without a warm entry the file is fetched once, for the node. An entry under the node's
      stamp whose file id is empty is still touched (with ""), an absent or stale one is not.
      Only a fetch that yields a file node links it, and the cache records it unless writing
      the record throws. */
  lemma ResolveMiss(s: MediaState, n: Node, image: Image, outcome: FetchOutcome)
    requires !Warm(s.cache, n, image)
    ensures var r := Resolve(s, n, image, outcome);
      var key := MediaCacheKey(image.id);
      r.after.fetches == s.fetches + [FetchRequest(image.src, n.id)] &&
      r.after.touched == (if key in s.cache && s.cache[key].modified == n.modified then s.touched + [""] else s.touched) &&
      (outcome.Fetched? ==> r.after.cache == s.cache[key := CacheRecord(outcome.id, n.modified)] &&
                            r.link == outcome.id) &&
      (outcome.FetchedNotCached? ==> r.after.cache == s.cache && r.link == outcome.id) &&
      (outcome.NullResult? || outcome.Threw? ==> r.after.cache == s.cache && r.link == "")
  {
  }

  /** A file whose cache record could not be written is linked, but the cache is left as it
      was: the next run for the same node and image fetches it again. */
  lemma UncachedLinkRefetched(s: MediaState, n: Node, image: Image, id: NodeId, outcome: FetchOutcome)
    requires !Warm(s.cache, n, image) && id != ""
    ensures var first := Resolve(s, n, image, FetchedNotCached(id));
      var second := Resolve(first.after, n, image, outcome);
      first.link == id && first.after.cache == s.cache &&
      second.after.fetches == first.after.fetches + [FetchRequest(image.src, n.id)]
  {
    var first := Resolve(s, n, image, FetchedNotCached(id));
    ResolveMiss(s, n, image, FetchedNotCached(id));
    ResolveMiss(first.after, n, image, outcome);
  }

  /** An entry recorded under another `modified` stamp is stale: the file is fetched again. */
  lemma StaleEntryRefetched(s: MediaState, n: Node, image: Image, outcome: FetchOutcome)
    requires MediaCacheKey(image.id) in s.cache && s.cache[MediaCacheKey(image.id)].modified != n.modified
    ensures Resolve(s, n, image, outcome).after.fetches == s.fetches + [FetchRequest(image.src, n.id)]
    ensures Resolve(s, n, image, outcome).after.touched == s.touched
  {
  }

  /** Once a fetch has yielded a file, the next run for the same node and image finds it in
      the cache: it fetches nothing and links the same file, whatever the fetcher would do. */
  lemma RefetchAvoided(s: MediaState, n: Node, image: Image, id: NodeId, outcome: FetchOutcome)
    requires !Warm(s.cache, n, image) && id != ""
    ensures var first := Resolve(s, n, image, Fetched(id));
      var second := Resolve(first.after, n, image, outcome);
      first.link == id && Warm(first.after.cache, n, image) &&
      second.link == id && second.after.fetches == first.after.fetches &&
      second.after.cache == first.after.cache
  {
    var first := Resolve(s, n, image, Fetched(id));
    ResolveMiss(s, n, image, Fetched(id));
    ResolveHit(first.after, n, image, outcome);
  }

  /** The scenario of a cached image: media item 5 was stored as file node "F1" under the
      node's current stamp, so "F1" is linked and touched and nothing is fetched. */
  lemma CachedImageScenario(s: MediaState, n: Node, image: Image, outcome: FetchOutcome)
    requires image.id == Num(5) && n.modified == Some("2020-01-01")
    requires s.cache == map["wordpress-media-5" := CacheRecord("F1", Some("2020-01-01"))]
    ensures var r := Resolve(s, n, image, outcome);
      r.link == "F1" && r.after.fetches == s.fetches && r.after.touched == s.touched + ["F1"] &&
      r.after.cache == s.cache
  {
    assert Decimal(5) == "5";
    assert MediaCacheKey(image.id) == "wordpress-media-5";
    ResolveHit(s, n, image, outcome);
  }

  /** The same cache, but the node now carries a newer stamp: the entry is stale, the file is
      fetched for the node and the new file is recorded under the new stamp. */
  lemma ChangedStampScenario(s: MediaState, n: Node, image: Image)
    requires image.id == Num(5) && n.modified == Some("2020-02-01")
    requires s.cache == map["wordpress-media-5" := CacheRecord("F1", Some("2020-01-01"))]
    ensures var r := Resolve(s, n, image, Fetched("F2"));
      r.link == "F2" && r.after.fetches == s.fetches + [FetchRequest(image.src, n.id)] &&
      r.after.touched == s.touched &&
      r.after.cache == map["wordpress-media-5" := CacheRecord("F2", Some("2020-02-01"))]
  {
    assert Decimal(5) == "5";
    assert MediaCacheKey(image.id) == "wordpress-media-5";
    assert Some("2020-01-01") != Some("2020-02-01") by {
      assert "2020-01-01"[6] != "2020-02-01"[6];
    }
    ResolveMiss(s, n, image, Fetched("F2"));
  }

  /** One call of `downloadMedia` that `mapMediaToNodes` makes: an image of a node. */
  datatype Job = Job(node: Node, image: Image)

  /** The calls made for node `n` (lines 131-149): one per image when `n.images` is non-empty,
      else one for `n.image` when it has a truthy id, else none. */
  function Selected(n: Node): (jobs: seq<Job>)
    ensures forall j :: j in jobs ==> j.node == n
  {
    ImageJobsAt(n, n.images);
    if |n.images| > 0 then ImageJobs(n, n.images)
    else if n.image.Some? && Truthy(n.image.value.id) then [Job(n, n.image.value)]
    else []
  }

  /** One call per image of `imgs`, in order, each for node `n`. */
  function ImageJobs(n: Node, imgs: seq<Image>): seq<Job>
    decreases |imgs|
  {
    if imgs == [] then [] else ImageJobs(n, imgs[..|imgs| - 1]) + [Job(n, imgs[|imgs| - 1])]
  }

  /** The `k`-th call of `ImageJobs` is for the `k`-th image. */
  lemma {:induction false} ImageJobsAt(n: Node, imgs: seq<Image>)
    ensures |ImageJobs(n, imgs)| == |imgs|
    ensures forall k :: 0 <= k < |imgs| ==> ImageJobs(n, imgs)[k] == Job(n, imgs[k])
    decreases |imgs|
  {
    if imgs != [] {
      var init := imgs[..|imgs| - 1];
      ImageJobsAt(n, init);
      forall k | 0 <= k < |imgs| - 1
        ensures ImageJobs(n, imgs)[k] == Job(n, imgs[k])
      {
        assert init[k] == imgs[k];
      }
    }
  }

  /** The call for image `k` follows those for the images before it, and is one of `n`'s calls. */
  lemma ImageJobsSnoc(n: Node, before: seq<Job>, k: nat)
    requires k < |n.images|
    ensures before + ImageJobs(n, n.images[..k + 1]) == before + ImageJobs(n, n.images[..k]) + [Job(n, n.images[k])]
    ensures Job(n, n.images[k]) in Selected(n)
  {
    assert n.images[..k + 1][..k] == n.images[..k];
    ImageJobsAt(n, n.images);
    assert Selected(n)[k] == Job(n, n.images[k]);
  }

  /** The calls made for all of `nodes`, node after node. */
  function Jobs(nodes: seq<Node>): seq<Job>
    decreases |nodes|
  {
    if nodes == [] then [] else Jobs(nodes[..|nodes| - 1]) + Selected(nodes[|nodes| - 1])
  }

  /** The images that `mapMediaToNodes(nodes)` may update. */
  function JobImages(nodes: seq<Node>): set<Image> {
    set j | j in Jobs(nodes) :: j.image
  }

  /** Every call is for a node of the list and for one of its images, or for its single image
      when the list of images is empty and that image has a truthy id. */
  lemma {:induction false} JobsSound(nodes: seq<Node>)
    ensures forall j :: j in Jobs(nodes) ==>
      j.node in nodes &&
      (j.image in j.node.images ||
       (j.node.images == [] && j.node.image == Some(j.image) && Truthy(j.image.id)))
    decreases |nodes|
  {
    if nodes != [] {
      var init := nodes[..|nodes| - 1];
      var last := nodes[|nodes| - 1];
      JobsSound(init);
      forall j | j in Jobs(nodes)
        ensures j.node in nodes
        ensures j.image in j.node.images ||
                (j.node.images == [] && j.node.image == Some(j.image) && Truthy(j.image.id))
      {
        if j in Jobs(init) {
          assert j.node in init;
        } else if |last.images| > 0 {
          ImageJobsAt(last, last.images);
          var k :| 0 <= k < |Selected(last)| && Selected(last)[k] == j;
          assert j == Job(last, last.images[k]);
        }
      }
    }
  }

  /** Every image of every node is downloaded, and so is the single image of a node without
      images, when its id is truthy. */
  lemma {:induction false} JobsComplete(nodes: seq<Node>)
    ensures forall n, k :: n in nodes && 0 <= k < |n.images| ==> Job(n, n.images[k]) in Jobs(nodes)
    ensures forall n :: n in nodes && n.images == [] && n.image.Some? && Truthy(n.image.value.id) ==>
      Job(n, n.image.value) in Jobs(nodes)
    decreases |nodes|
  {
    if nodes != [] {
      var init := nodes[..|nodes| - 1];
      var last := nodes[|nodes| - 1];
      JobsComplete(init);
      forall n, k | n in nodes && 0 <= k < |n.images|
        ensures Job(n, n.images[k]) in Jobs(nodes)
      {
        if n != last {
          assert n in init;
        } else {
          ImageJobsAt(n, n.images);
          assert Selected(last)[k] == Job(n, n.images[k]);
        }
      }
      forall n | n in nodes && n.images == [] && n.image.Some? && Truthy(n.image.value.id)
        ensures Job(n, n.image.value) in Jobs(nodes)
      {
        if n != last {
          assert n in init;
        }
      }
    }
  }

  /** The jobs of one node come after those of the nodes before it. */
  lemma JobsSnoc(nodes: seq<Node>, i: nat)
    requires i < |nodes|
    ensures Jobs(nodes[..i + 1]) == Jobs(nodes[..i]) + Selected(nodes[i])
  {
    assert nodes[..i + 1][..i] == nodes[..i];
  }

  /** The jobs of a node of the list are among the list's jobs. */
  lemma {:induction false} SelectedInJobs(nodes: seq<Node>, i: nat)
    requires i < |nodes|
    ensures forall j :: j in Selected(nodes[i]) ==> j in Jobs(nodes)
    decreases |nodes|
  {
    if i < |nodes| - 1 {
      var init := nodes[..|nodes| - 1];
      assert init[i] == nodes[i];
      SelectedInJobs(init, i);
    }
  }

  /** One job run against the host state `s`, the fetcher being asked for its next outcome. */
  function Next(s: MediaState, j: Job, oracle: nat -> FetchOutcome): Resolution {
    Resolve(s, j.node, j.image, oracle(|s.fetches|))
  }

  /** The host state after the jobs ran one after the other from `s0`; the `k`-th fetch has
      outcome `oracle(k)`. */
  function RunJobs(s0: MediaState, jobs: seq<Job>, oracle: nat -> FetchOutcome): MediaState
    decreases |jobs|
  {
    if jobs == [] then s0
    else Next(RunJobs(s0, jobs[..|jobs| - 1], oracle), jobs[|jobs| - 1], oracle).after
  }

  /** `localFile___NODE` of `img` after the jobs ran, from `init`: the last file linked to it. */
  function LinkAfter(s0: MediaState, jobs: seq<Job>, oracle: nat -> FetchOutcome, img: Image,
                     init: Option<NodeId>): Option<NodeId>
    decreases |jobs|
  {
    if jobs == [] then init
    else
      var prev := jobs[..|jobs| - 1];
      var j := jobs[|jobs| - 1];
      var r := Next(RunJobs(s0, prev, oracle), j, oracle);
      if j.image == img && r.link != "" then Some(r.link) else LinkAfter(s0, prev, oracle, img, init)
  }

  /** Running one more job. */
  lemma RunJobsSnoc(s0: MediaState, done: seq<Job>, j: Job, oracle: nat -> FetchOutcome)
    ensures var r := Next(RunJobs(s0, done, oracle), j, oracle);
      RunJobs(s0, done + [j], oracle) == r.after &&
      forall img, init :: LinkAfter(s0, done + [j], oracle, img, init) ==
        if j.image == img && r.link != "" then Some(r.link) else LinkAfter(s0, done, oracle, img, init)
  {
    assert (done + [j])[..|done|] == done;
  }

  /** Each job asks for at most one fetch, and earlier fetches are never forgotten. */
  lemma {:induction false} RunJobsFetchBound(s0: MediaState, jobs: seq<Job>, oracle: nat -> FetchOutcome)
    ensures var s := RunJobs(s0, jobs, oracle);
      |s0.fetches| <= |s.fetches| <= |s0.fetches| + |jobs| && s.fetches[..|s0.fetches|] == s0.fetches
    decreases |jobs|
  {
    if jobs != [] {
      var prev := jobs[..|jobs| - 1];
      RunJobsFetchBound(s0, prev, oracle);
      var s := RunJobs(s0, prev, oracle);
      var t := RunJobs(s0, jobs, oracle);
      assert t.fetches == s.fetches || t.fetches == s.fetches + [FetchRequest(jobs[|jobs| - 1].image.src, jobs[|jobs| - 1].node.id)];
      assert t.fetches[..|s.fetches|] == s.fetches;
      assert t.fetches[..|s0.fetches|] == t.fetches[..|s.fetches|][..|s0.fetches|];
    }
  }

  /** Cache entries are written, never deleted. */
  lemma {:induction false} RunJobsKeepsEntries(s0: MediaState, jobs: seq<Job>, oracle: nat -> FetchOutcome)
    ensures s0.cache.Keys <= RunJobs(s0, jobs, oracle).cache.Keys
    decreases |jobs|
  {
    if jobs != [] {
      RunJobsKeepsEntries(s0, jobs[..|jobs| - 1], oracle);
    }
  }

  /** A warm run: when the cache already holds a usable file for every job, nothing is
      fetched and the cache is unchanged. */
  lemma {:induction false} WarmRunFetchesNothing(s0: MediaState, jobs: seq<Job>, oracle: nat -> FetchOutcome)
    requires forall j :: j in jobs ==> Warm(s0.cache, j.node, j.image)
    ensures RunJobs(s0, jobs, oracle).fetches == s0.fetches
    ensures RunJobs(s0, jobs, oracle).cache == s0.cache
    decreases |jobs|
  {
    if jobs != [] {
      var prev := jobs[..|jobs| - 1];
      var j := jobs[|jobs| - 1];
      assert forall x :: x in prev ==> x in jobs;
      WarmRunFetchesNothing(s0, prev, oracle);
      var s := RunJobs(s0, prev, oracle);
      ResolveHit(s, j.node, j.image, oracle(|s.fetches|));
    }
  }

  /** An image that no job is for keeps its file link. */
  lemma {:induction false} LinkAfterUntouched(s0: MediaState, jobs: seq<Job>, oracle: nat -> FetchOutcome,
                                              img: Image, init: Option<NodeId>)
    requires forall j :: j in jobs ==> j.image != img
    ensures LinkAfter(s0, jobs, oracle, img, init) == init
    decreases |jobs|
  {
    if jobs != [] {
      var prev := jobs[..|jobs| - 1];
      assert forall x :: x in prev ==> x in jobs;
      LinkAfterUntouched(s0, prev, oracle, img, init);
    }
  }

  /** The host and the images after the jobs `done` ran from `s0`, the images having started
      with the file links `links0`. */
  ghost predicate RanJobs(host: Host, images: set<Image>, s0: MediaState, done: seq<Job>,
                          oracle: nat -> FetchOutcome, links0: map<Image, Option<NodeId>>)
    reads host, images
  {
    host.State() == RunJobs(s0, done, oracle) &&
    forall img :: img in images ==> img in links0 && img.localFile == LinkAfter(s0, done, oracle, img, links0[img])
  }

  /** One `downloadMedia` call of `mapMediaToNodes`. */
  method RunJob(host: Host, j: Job, oracle: nat -> FetchOutcome, ghost images: set<Image>,
                ghost s0: MediaState, ghost done: seq<Job>, ghost links0: map<Image, Option<NodeId>>)
    requires j.image in images
    requires RanJobs(host, images, s0, done, oracle, links0)
    modifies host, j.image
    ensures RanJobs(host, images, s0, done + [j], oracle, links0)
  {
    var outcome := oracle(|host.fetches|);
    DownloadMedia(host, j.node, j.image, outcome);
    RunJobsSnoc(s0, done, j, oracle);
  }

  /** `mapMediaToNodes({ nodes, ... })`, its downloads run one after the other in list order;
      it returns the same node objects. */
  method MapMediaToNodes(host: Host, nodes: seq<Node>, oracle: nat -> FetchOutcome) returns (r: seq<Node>)
    modifies host, JobImages(nodes)
    ensures r == nodes
    ensures host.State() == RunJobs(old(host.State()), Jobs(nodes), oracle)
    ensures forall img :: img in JobImages(nodes) && old(allocated(img)) ==>
      img.localFile == LinkAfter(old(host.State()), Jobs(nodes), oracle, img, old(img.localFile))
  {
    ghost var s0 := host.State();
    ghost var images := JobImages(nodes);
    ghost var links0 := map img | img in images :: img.localFile;
    NothingRunYet(host, images, s0, nodes, oracle, links0);
    var i := 0;
    while i < |nodes|
      invariant 0 <= i <= |nodes|
      invariant RanJobs(host, images, s0, Jobs(nodes[..i]), oracle, links0)
    {
      JobsSnoc(nodes, i);
      SelectedInJobs(nodes, i);
      MapNode(host, nodes[i], oracle, images, s0, Jobs(nodes[..i]), links0);
      i := i + 1;
    }
    assert nodes[..i] == nodes;
    r := nodes;
  }

  /** Before any download the host is as it was and every image keeps its link. */
  lemma NothingRunYet(host: Host, images: set<Image>, s0: MediaState, nodes: seq<Node>,
                      oracle: nat -> FetchOutcome, links0: map<Image, Option<NodeId>>)
    requires host.State() == s0
    requires forall img :: img in images ==> img in links0 && links0[img] == img.localFile
    ensures RanJobs(host, images, s0, Jobs(nodes[..0]), oracle, links0)
  {
    assert nodes[..0] == [];
  }

  /** The callback that `mapMediaToNodes` maps over the nodes (lines 121-150), for node `n`. */
  method MapNode(host: Host, n: Node, oracle: nat -> FetchOutcome, ghost images: set<Image>,
                 ghost s0: MediaState, ghost before: seq<Job>, ghost links0: map<Image, Option<NodeId>>)
    requires forall j :: j in Selected(n) ==> j.image in images
    requires RanJobs(host, images, s0, before, oracle, links0)
    modifies host, images
    ensures RanJobs(host, images, s0, before + Selected(n), oracle, links0)
  {
    if |n.images| > 0 {
      var k := 0;
      assert n.images[..0] == [];
      assert before + ImageJobs(n, n.images[..0]) == before;
      while k < |n.images|
        invariant 0 <= k <= |n.images|
        invariant RanJobs(host, images, s0, before + ImageJobs(n, n.images[..k]), oracle, links0)
      {
        var j := Job(n, n.images[k]);
        ghost var done := before + ImageJobs(n, n.images[..k]);
        ImageJobsSnoc(n, before, k);
        RunJob(host, j, oracle, images, s0, done, links0);
        k := k + 1;
      }
      assert n.images[..k] == n.images;
    } else if n.image.Some? && Truthy(n.image.value.id) {
      RunJob(host, Job(n, n.image.value), oracle, images, s0, before, links0);
    } else {
      assert before + Selected(n) == before;
    }
  }
}
