/** The fingerprinted cache of job-template previews.  A fingerprint is represented by the value it hashes, so
    hashes are taken to be injective. */
module PreviewCache {
  import opened Prelude

  datatype Template = Template(playbookId: int, filterType: string, filterValue: string, filters: string,
                               extraVars: string, updatedAt: int)

  datatype HostKey = HostKey(id: int, hostname: string, groups: seq<string>)

  /** What the preview shows of a host besides; no fingerprint covers it. */
  datatype HostExtra = HostExtra(ipv4: string, filterReason: string)

  /** What one request sees: the template, its playbook's path, the repository's commit and files, the hosts. */
  datatype World<F> = World(template: Template, path: string, sha: Option<string>, files: F, hosts: seq<HostKey>,
                            extras: seq<HostExtra>, now: int)

  /** The body is everything computed from path, files and hosts: plays, tasks, targets, reasons, confidence. */
  datatype Preview<B> = Preview(playbookId: int, path: string, sha: Option<string>, templatePrint: Template,
                                inventoryPrint: (string, string, string, seq<HostKey>), body: B,
                                extras: seq<HostExtra>, generatedAt: int)

  type Generator<!F, !B> = (string, F, seq<HostKey>) -> B

  function Generate<F, B>(gen: Generator<F, B>, w: World<F>): Preview<B> {
    Preview(w.template.playbookId, w.path, w.sha, w.template,
            (w.template.filterType, w.template.filterValue, w.template.filters, w.hosts),
            gen(w.path, w.files, w.hosts), w.extras, w.now)
  }

  /** Equal in every field but the time of generation and the uncovered host columns. */
  predicate Agrees<B(==)>(a: Preview<B>, b: Preview<B>) {
    && a.playbookId == b.playbookId && a.path == b.path && a.sha == b.sha
    && a.templatePrint == b.templatePrint && a.inventoryPrint == b.inventoryPrint && a.body == b.body
  }

  predicate SameKeys<B, C>(a: Preview<B>, b: Preview<C>) {
    && a.playbookId == b.playbookId && a.sha == b.sha
    && a.templatePrint == b.templatePrint && a.inventoryPrint == b.inventoryPrint
  }

  /** The cache row after a request; its preview is what the request is served. */
  function Refresh<B>(cached: Option<Preview<B>>, latest: Preview<B>, force: bool): Preview<B> {
    if force || cached.None? || !SameKeys(cached.value, latest) then latest else cached.value
  }

  class Cache<F, B(==)> {
    var stored: Option<Preview<B>>
    const gen: Generator<F, B>

    constructor (gen: Generator<F, B>)
      ensures stored == None && this.gen == gen
    {
      this.gen := gen;
      stored := None;
    }

    method GetOrRefresh(w: World<F>, force: bool) returns (served: Preview<B>)
      modifies this
      ensures served == Refresh(old(stored), Generate(gen, w), force) && stored == Some(served)
    {
      var latest := Generate(gen, w);
      var stale := force || stored.None? || stored.value.playbookId != latest.playbookId
        || stored.value.sha != latest.sha || stored.value.templatePrint != latest.templatePrint
        || stored.value.inventoryPrint != latest.inventoryPrint;
      if stale {
        stored := Some(latest);
      }
      served := stored.value;
    }
  }

  datatype Request<F> = Request(world: World<F>, force: bool)

  function CacheAfter<F, B>(gen: Generator<F, B>, rs: seq<Request<F>>): Option<Preview<B>> {
    if rs == [] then None
    else Some(Refresh(CacheAfter(gen, Init(rs)), Generate(gen, Last(rs).world), Last(rs).force))
  }

  /** The cached preview was generated for some earlier request whose keys it still has. */
  lemma {:induction false} CacheIsSomeRequest<F(!new), B>(gen: Generator<F, B>, rs: seq<Request<F>>)
    returns (i: nat)
    requires rs != []
    ensures i < |rs| && CacheAfter(gen, rs) == Some(Generate(gen, rs[i].world))
    ensures SameKeys(Generate(gen, rs[i].world), Generate(gen, Last(rs).world))
  {
    var before := CacheAfter(gen, Init(rs));
    if before.None? || Last(rs).force || !SameKeys(before.value, Generate(gen, Last(rs).world)) {
      i := |rs| - 1;
    } else {
      i := CacheIsSomeRequest(gen, Init(rs));
    }
  }

  /** A commit fixes the files, and a playbook's path does not change. */
  ghost predicate Versioned<F>(rs: seq<Request<F>>) {
    forall i, j :: 0 <= i < |rs| && 0 <= j < |rs| ==>
      var a, b := rs[i].world, rs[j].world;
      && (a.sha.Some? && a.sha == b.sha ==> a.files == b.files)
      && (a.template.playbookId == b.template.playbookId ==> a.path == b.path)
  }

  /** Over any run of edits and requests, what is served for a commit agrees with a fresh preview.  Without a
      commit it agrees exactly when the files the cached preview was made from give the same body. */
  lemma ServedIsFresh<F(!new), B>(gen: Generator<F, B>, rs: seq<Request<F>>) returns (i: nat)
    requires rs != [] && Versioned(rs)
    ensures i < |rs| && CacheAfter(gen, rs) == Some(Generate(gen, rs[i].world))
    ensures var served := CacheAfter(gen, rs).value;
      var w := Last(rs).world;
      && (w.sha.Some? ==> Agrees(served, Generate(gen, w)))
      && (Agrees(served, Generate(gen, w)) <==> gen(w.path, rs[i].world.files, w.hosts) == gen(w.path, w.files, w.hosts))
      && (Last(rs).force ==> served == Generate(gen, w))
  {
    i := CacheIsSomeRequest(gen, rs);
    var w := Last(rs).world;
    assert rs[i].world.template.playbookId == w.template.playbookId;
  }

  /** An unversioned repository can be served stale. */
  lemma UnversionedCanBeStale() returns (rs: seq<Request<int>>)
    ensures var gen := (p: string, f: int, h: seq<HostKey>) => f;
      |rs| == 2 && Versioned(rs) && !Agrees(CacheAfter(gen, rs).value, Generate(gen, rs[1].world))
  {
    var t := Template(1, "all", "", "", "", 0);
    var first := Request(World(t, "site.yml", None, 1, [], [], 0), false);
    var second := Request(World(t, "site.yml", None, 2, [], [], 1), false);
    rs := [first, second];
    var gen := (p: string, f: int, h: seq<HostKey>) => f;
    assert Init(rs) == [first] && Init([first]) == [];
    assert CacheAfter(gen, [first]) == Some(Generate(gen, first.world));
    assert CacheAfter(gen, rs) == Some(Generate(gen, first.world));
  }

  /** Serving a run of requests from the cache: for a commit every answer agrees with a fresh preview, and a forced
      one is fresh. */
  method ServeAll<F(!new), B(==)>(cache: Cache<F, B>, rs: seq<Request<F>>) returns (served: seq<Preview<B>>)
    requires cache.stored == None && Versioned(rs)
    modifies cache
    ensures |served| == |rs|
    ensures forall j :: 0 <= j < |rs| && rs[j].world.sha.Some? ==> Agrees(served[j], Generate(cache.gen, rs[j].world))
    ensures forall j :: 0 <= j < |rs| && rs[j].force ==> served[j] == Generate(cache.gen, rs[j].world)
  {
    served := [];
    for i := 0 to |rs|
      invariant |served| == i && cache.stored == CacheAfter(cache.gen, rs[..i])
      invariant forall j :: 0 <= j < i && rs[j].world.sha.Some? ==> Agrees(served[j], Generate(cache.gen, rs[j].world))
      invariant forall j :: 0 <= j < i && rs[j].force ==> served[j] == Generate(cache.gen, rs[j].world)
    {
      var now := rs[..i + 1];
      assert Init(now) == rs[..i] && Last(now) == rs[i];
      var preview := cache.GetOrRefresh(rs[i].world, rs[i].force);
      var j := ServedIsFresh(cache.gen, now);
      served := served + [preview];
    }
  }
}
