/** The router: resources kept longest path first, so that the first match is a
    longest match. */
module Router {
  import opened Values

  datatype Resource = Resource(name: string, path: string)

  // ---- Matching

  /** A resource's path without one trailing slash; the root's is empty. */
  function Stem(path: string): string {
    if path != [] && path[|path| - 1] == '/' then path[..|path| - 1] else path
  }

  predicate PathMatches(request: string, path: string) {
    path == "/" || HasPrefix(request, Stem(path))
  }

  /** The root matches every request, any other path those that begin with it, where
      one trailing slash of the path does not count. */
  lemma {:induction false} MatchesByPrefix(request: string, path: string)
    ensures PathMatches(request, path) <==>
            path == "/" || path <= request || (exists stem :: path == stem + "/" && stem <= request)
  {
    if path != [] && path[|path| - 1] == '/' {
      assert path == path[..|path| - 1] + "/";
      assert forall stem :: path == stem + "/" ==> stem == path[..|path| - 1];
    }
  }

  /** The first resource that matches. */
  predicate IsFirstMatch(resources: seq<Resource>, request: string, found: Option<Resource>) {
    if found.None? then forall i | 0 <= i < |resources| :: !PathMatches(request, resources[i].path)
    else
      exists i | 0 <= i < |resources| ::
        resources[i] == found.value && PathMatches(request, resources[i].path) &&
        forall j | 0 <= j < i :: !PathMatches(request, resources[j].path)
  }

  // ---- The order

  function Slashes(path: string): nat {
    if path == [] then 0 else Slashes(path[1..]) + if path[0] == '/' then 1 else 0
  }

  /** Longer paths first, then paths of more segments. */
  predicate Before(a: Resource, b: Resource) {
    |a.path| > |b.path| || (|a.path| == |b.path| && Slashes(a.path) > Slashes(b.path))
  }

  predicate IsSorted(resources: seq<Resource>) {
    forall i, j | 0 <= i < j < |resources| :: !Before(resources[j], resources[i])
  }

  lemma {:induction false} BeforeAll(a: Resource, b: Resource, c: Resource)
    requires Before(a, b) && !Before(c, b)
    ensures !Before(c, a)
  {
  }

  lemma {:induction false} InsertedSorted(sorted: seq<Resource>, k: nat, r: Resource)
    requires IsSorted(sorted) && k <= |sorted|
    requires forall j | 0 <= j < k :: !Before(r, sorted[j])
    requires k < |sorted| ==> Before(r, sorted[k])
    ensures IsSorted(sorted[..k] + [r] + sorted[k..])
  {
    hide Before;
    var after := sorted[..k] + [r] + sorted[k..];
    forall j | k <= j < |sorted|
      ensures !Before(sorted[j], r)
    {
      if j == k {
        NotBoth(r, sorted[k]);
      } else {
        BeforeAll(r, sorted[k], sorted[j]);
      }
    }
    forall i, j | 0 <= i < j < |after|
      ensures !Before(after[j], after[i])
    {
      assert i != k ==> after[i] == sorted[if i < k then i else i - 1];
      assert j != k ==> after[j] == sorted[if j < k then j else j - 1];
    }
  }

  lemma {:induction false} NotBoth(a: Resource, b: Resource)
    ensures !(Before(a, b) && Before(b, a))
  {
  }

  lemma {:induction false} SlashesMore(path: string, c: char)
    ensures Slashes(path + [c]) == Slashes(path) + if c == '/' then 1 else 0
    decreases path
  {
    if path == [] {
      assert path + [c] == [c] && [c][1..] == [];
    } else {
      assert (path + [c])[1..] == path[1..] + [c];
      SlashesMore(path[1..], c);
    }
  }

  lemma {:induction false} SlashesCounted(path: string)
    ensures Slashes(path) == |set i: nat | i < |path| && path[i] == '/'|
    decreases path
  {
    if path != [] {
      var n := |path| - 1;
      var init := path[..n];
      assert path == init + [path[n]];
      SlashesCounted(init);
      SlashesMore(init, path[n]);
      var before, all := set i: nat | i < n && init[i] == '/', set i: nat | i < |path| && path[i] == '/';
      assert all == if path[n] == '/' then before + {n} else before;
    }
  }

  /** In a sorted list the first match has a longest path of all that match, and of
      those one of the most segments. */
  lemma {:induction false} FirstIsLongest(resources: seq<Resource>, request: string, found: Option<Resource>)
    requires IsSorted(resources) && IsFirstMatch(resources, request, found)
    ensures found.Some? <==> exists r | r in resources :: PathMatches(request, r.path)
    ensures found.Some? ==> found.value in resources && PathMatches(request, found.value.path)
    ensures found.Some? ==> forall r | r in resources && PathMatches(request, r.path) ::
      |r.path| < |found.value.path| ||
      (|r.path| == |found.value.path| && Slashes(r.path) <= Slashes(found.value.path))
  {
    if found.Some? {
      var i :| 0 <= i < |resources| && resources[i] == found.value && PathMatches(request, resources[i].path) &&
        forall j | 0 <= j < i :: !PathMatches(request, resources[j].path);
      forall r | r in resources && PathMatches(request, r.path)
        ensures |r.path| < |found.value.path| ||
                (|r.path| == |found.value.path| && Slashes(r.path) <= Slashes(found.value.path))
      {
        var j :| 0 <= j < |resources| && resources[j] == r;
        assert j > i ==> !Before(resources[j], resources[i]);
      }
    }
  }

  /** One of the longest of all the resources that match. */
  ghost predicate IsLongestMatch(resources: seq<Resource>, request: string, r: Resource) {
    && r in resources && PathMatches(request, r.path)
    && forall other | other in resources && PathMatches(request, other.path) :: |other.path| <= |r.path|
  }

  lemma {:induction false} MatchesStem(request: string, path: string)
    ensures PathMatches(request, path) <==> Stem(path) <= request
  {
    if path == "/" {
      assert Stem(path) == [];
    }
  }

  /** One stem begins with the other; without trailing slashes, paths of one length then coincide. */
  predicate Overlap(p: string, q: string) {
    Stem(p) <= Stem(q) || Stem(q) <= Stem(p)
  }

  /** Some request matches both paths exactly when their stems overlap. */
  lemma {:induction false} OverlapExactly(p: string, q: string)
    ensures (exists request :: PathMatches(request, p) && PathMatches(request, q)) <==> Overlap(p, q)
  {
    forall request
      ensures PathMatches(request, p) <==> Stem(p) <= request
      ensures PathMatches(request, q) <==> Stem(q) <= request
    {
      MatchesStem(request, p);
      MatchesStem(request, q);
    }
    if Overlap(p, q) {
      var longer := if Stem(p) <= Stem(q) then Stem(q) else Stem(p);
      assert PathMatches(longer, p) && PathMatches(longer, q);
    }
  }

  /** Two different paths of one length that overlap, and no longer path with the
      longer of their stems, which would win over both wherever both match. */
  ghost predicate Clash(resources: seq<Resource>, a: Resource, b: Resource) {
    && a in resources && b in resources
    && a.path != b.path && |a.path| == |b.path| && Stem(a.path) <= Stem(b.path)
    && forall r | r in resources && Stem(r.path) == Stem(b.path) :: |r.path| <= |b.path|
  }

  /** Two resources are both longest matches of a request, with different paths. */
  ghost predicate Ambiguous(resources: seq<Resource>, request: string, a: Resource, b: Resource) {
    IsLongestMatch(resources, request, a) && IsLongestMatch(resources, request, b) && a.path != b.path
  }

  /** Some request is ambiguous exactly when two of the resources clash. */
  lemma {:induction false} AmbiguousExactly(resources: seq<Resource>)
    ensures (exists request, a, b :: Ambiguous(resources, request, a, b)) <==> (exists a, b :: Clash(resources, a, b))
  {
    if request, a, b :| Ambiguous(resources, request, a, b) {
      AmbiguousClash(resources, request, a, b);
    }
    if a, b :| Clash(resources, a, b) {
      ClashAmbiguous(resources, a, b);
    }
  }

  /** Rooted, and without a trailing slash unless it is the root. */
  predicate Tidy(path: string) {
    path != [] && path[0] == '/' && (path == "/" || path[|path| - 1] != '/')
  }

  /** Rooted paths without trailing slashes never clash. */
  lemma {:induction false} TidyNeverClash(resources: seq<Resource>, a: Resource, b: Resource)
    requires forall r | r in resources :: Tidy(r.path)
    ensures !Clash(resources, a, b)
  {
    if a in resources && b in resources && |a.path| == |b.path| {
      if a.path == "/" || b.path == "/" {
        assert a.path == [a.path[0]] && b.path == [b.path[0]];
      } else {
        assert Stem(a.path) == a.path && Stem(b.path) == b.path;
      }
    }
  }

  lemma {:induction false} AmbiguousClash(resources: seq<Resource>, request: string, a: Resource, b: Resource)
    requires Ambiguous(resources, request, a, b)
    ensures Clash(resources, a, b) || Clash(resources, b, a)
  {
    MatchesStem(request, a.path);
    MatchesStem(request, b.path);
    forall r | r in resources && (Stem(r.path) == Stem(a.path) || Stem(r.path) == Stem(b.path))
      ensures |r.path| <= |a.path|
    {
      MatchesStem(request, r.path);
    }
    assert Stem(a.path) == request[..|Stem(a.path)|] && Stem(b.path) == request[..|Stem(b.path)|];
  }

  lemma {:induction false} ClashAmbiguous(resources: seq<Resource>, a: Resource, b: Resource)
    requires Clash(resources, a, b)
    ensures Ambiguous(resources, Stem(b.path), a, b)
  {
    var request := Stem(b.path);
    MatchesStem(request, a.path);
    MatchesStem(request, b.path);
    forall r | r in resources && PathMatches(request, r.path)
      ensures |r.path| <= |b.path|
    {
      MatchesStem(request, r.path);
    }
  }

  // ---- The router's operations

  /** Replace the first resource of that name, if there is one. */
  predicate ReplacesFirst(before: seq<Resource>, name: string, r: Resource, after: seq<Resource>) {
    if forall i | 0 <= i < |before| :: before[i].name != name then after == before
    else
      exists k | 0 <= k < |before| ::
        before[k].name == name && (forall i | 0 <= i < k :: before[i].name != name) && after == before[k := r]
  }

  predicate RemovesFirst(before: seq<Resource>, name: string, after: seq<Resource>) {
    if forall i | 0 <= i < |before| :: before[i].name != name then after == before
    else
      exists k | 0 <= k < |before| ::
        before[k].name == name && (forall i | 0 <= i < k :: before[i].name != name) &&
        after == before[..k] + before[k + 1..]
  }

  datatype Op = Add(r: Resource) | Update(name: string, r: Resource) | Remove(name: string)

  /** Sorted, with the same resources. */
  predicate Sorts(before: seq<Resource>, after: seq<Resource>) {
    IsSorted(after) && multiset(after) == multiset(before)
  }

  ghost predicate StepOf(before: seq<Resource>, op: Op, after: seq<Resource>) {
    match op
    case Add(r) => Sorts(before + [r], after)
    case Update(name, r) => exists changed :: ReplacesFirst(before, name, r, changed) && Sorts(changed, after)
    case Remove(name) => RemovesFirst(before, name, after)
  }

  lemma {:induction false} StepKeepsSorted(before: seq<Resource>, op: Op, after: seq<Resource>)
    requires IsSorted(before) && StepOf(before, op, after)
    ensures IsSorted(after)
  {
    if op.Remove? && after != before {
      var k :| 0 <= k < |before| && after == before[..k] + before[k + 1..];
      forall i, j | 0 <= i < j < |after|
        ensures !Before(after[j], after[i])
      {
        assert after[i] == before[if i < k then i else i + 1] && after[j] == before[if j < k then j else j + 1];
      }
    }
  }

  ghost predicate IsRun(ops: seq<Op>, lists: seq<seq<Resource>>) {
    && |lists| == |ops| + 1 && IsSorted(lists[0])
    && forall i | 0 <= i < |ops| :: StepOf(lists[i], ops[i], lists[i + 1])
  }

  /** After any operations from a sorted list a request goes to a longest match, and
      wherever no two resources clash to the only path that is one. */
  lemma {:induction false} RunsRouteByLongest(ops: seq<Op>, lists: seq<seq<Resource>>, n: nat, request: string,
                                              found: Option<Resource>)
    requires IsRun(ops, lists) && n <= |ops| && IsFirstMatch(lists[n], request, found)
    ensures found.Some? <==> exists r | r in lists[n] :: PathMatches(request, r.path)
    ensures found.Some? ==> IsLongestMatch(lists[n], request, found.value)
    ensures found.Some? && !(exists a, b :: Clash(lists[n], a, b)) ==>
      forall r | IsLongestMatch(lists[n], request, r) :: r.path == found.value.path
  {
    RunSorted(ops, lists, n);
    FirstIsLongest(lists[n], request, found);
    AmbiguousExactly(lists[n]);
    if found.Some? && !(exists a, b :: Clash(lists[n], a, b)) {
      forall r | IsLongestMatch(lists[n], request, r)
        ensures r.path == found.value.path
      {
        assert !Ambiguous(lists[n], request, r, found.value);
      }
    }
  }

  lemma {:induction false} RunSorted(ops: seq<Op>, lists: seq<seq<Resource>>, n: nat)
    requires IsRun(ops, lists) && n <= |ops|
    ensures IsSorted(lists[n])
    decreases n
  {
    if n > 0 {
      RunSorted(ops, lists, n - 1);
      StepKeepsSorted(lists[n - 1], ops[n - 1], lists[n]);
    }
  }

  class Router {
    var resources: seq<Resource>

    constructor (resources: seq<Resource>)
      ensures Sorts(resources, this.resources)
    {
      this.resources := resources;
      new;
      SortResources();
    }

    method FindMatchingResource(request: string) returns (found: Option<Resource>)
      ensures IsFirstMatch(resources, request, found)
    {
      for i := 0 to |resources|
        invariant forall j | 0 <= j < i :: !PathMatches(request, resources[j].path)
      {
        if PathMatches(request, resources[i].path) {
          return Some(resources[i]);
        }
      }
      return None;
    }

    method AddResource(resource: Resource)
      modifies this
      ensures StepOf(old(resources), Add(resource), resources)
    {
      resources := resources + [resource];
      SortResources();
    }

    method UpdateResource(name: string, resource: Resource)
      modifies this
      ensures StepOf(old(resources), Update(name, resource), resources)
    {
      var i := FirstNamed(name);
      if i.Some? {
        resources := resources[i.value := resource];
      }
      assert ReplacesFirst(old(resources), name, resource, resources);
      SortResources();
    }

    method RemoveResource(name: string)
      modifies this
      ensures StepOf(old(resources), Remove(name), resources)
    {
      var i := FirstNamed(name);
      if i.Some? {
        resources := resources[..i.value] + resources[i.value + 1..];
      }
    }

    method FirstNamed(name: string) returns (k: Option<nat>)
      ensures k.None? ==> forall i | 0 <= i < |resources| :: resources[i].name != name
      ensures k.Some? ==>
        k.value < |resources| && resources[k.value].name == name &&
          forall i | 0 <= i < k.value :: resources[i].name != name
    {
      for i := 0 to |resources|
        invariant forall j | 0 <= j < i :: resources[j].name != name
      {
        if resources[i].name == name {
          return Some(i);
        }
      }
      return None;
    }

    /** Go's sort.Slice, which promises no more than this. */
    method SortResources()
      modifies this
      ensures Sorts(old(resources), resources)
    {
      var sorted: seq<Resource> := [];
      for i := 0 to |resources|
        invariant resources == old(resources)
        invariant IsSorted(sorted) && multiset(sorted) == multiset(resources[..i])
      {
        sorted := InsertSorted(sorted, resources[i]);
        assert resources[..i + 1] == resources[..i] + [resources[i]];
      }
      assert resources[..|resources|] == resources;
      resources := sorted;
    }

    method InsertSorted(sorted: seq<Resource>, r: Resource) returns (after: seq<Resource>)
      requires IsSorted(sorted)
      ensures IsSorted(after) && multiset(after) == multiset(sorted) + multiset{r}
    {
      var k := 0;
      while k < |sorted| && !Before(r, sorted[k])
        invariant 0 <= k <= |sorted| && forall j | 0 <= j < k :: !Before(r, sorted[j])
      {
        k := k + 1;
      }
      after := sorted[..k] + [r] + sorted[k..];
      assert sorted == sorted[..k] + sorted[k..];
      InsertedSorted(sorted, k, r);
    }
  }
}
