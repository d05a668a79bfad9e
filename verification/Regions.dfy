/**
 Grouping the regions of a cloud provider: a map of slices filled in input order, its keys
 sorted, and one group written for each. The result is a stable sort by group code.
 */
module Regions {
  import opened Wrappers

  datatype CloudRegion = CloudRegion(group: string, name: string, description: string)

  datatype CloudImage = CloudImage(region: string, image: string)

  datatype Datacenter = Datacenter(code: string, location: string, image: Option<string>)

  datatype Group = Group(code: string, datacenters: seq<Datacenter>)

  // ---------- The order of strings ----------

  predicate Less(a: string, b: string) {
    if b == "" then false
    else if a == "" then true
    else a[0] < b[0] || (a[0] == b[0] && Less(a[1..], b[1..]))
  }

  lemma {:induction false} LessIsStrict(a: string, b: string)
    ensures Less(a, b) || Less(b, a) || a == b
    ensures !(Less(a, b) && Less(b, a)) && !Less(a, a)
    decreases |a|
  {
    if a != "" && b != "" {
      LessIsStrict(a[1..], b[1..]);
      assert a == [a[0]] + a[1..] && b == [b[0]] + b[1..];
    } else if a != "" {
      LessIsStrict(a[1..], "");
    }
  }

  lemma {:induction false} LessIsTransitive(a: string, b: string, c: string)
    requires Less(a, b) && Less(b, c)
    ensures Less(a, c)
    decreases |a|
  {
    if a != "" && a[0] == b[0] && b[0] == c[0] {
      LessIsTransitive(a[1..], b[1..], c[1..]);
    }
  }

  /** The order of `sort.Strings`: at the first place where two texts differ the smaller character
      decides, and a text is below every text it begins. */
  lemma {:induction false} LessIsLexicographic(a: string, b: string, n: nat)
    requires n <= |a| && n <= |b| && a[..n] == b[..n]
    ensures n < |a| && n < |b| && a[n] != b[n] ==> (Less(a, b) <==> a[n] < b[n])
    ensures n == |a| ==> (Less(a, b) <==> |a| < |b|)
    decreases n
  {
    if n > 0 {
      assert a[0] == a[..n][0] == b[..n][0] == b[0];
      assert a[1..][..n - 1] == a[..n][1..] && b[1..][..n - 1] == b[..n][1..];
      LessIsLexicographic(a[1..], b[1..], n - 1);
    }
  }

  ghost predicate Increasing(keys: seq<string>) {
    forall i, j | 0 <= i < j < |keys| :: Less(keys[i], keys[j])
  }

  // ---------- Images ----------

  /** The first image of a region. */
  function FindImage(images: seq<CloudImage>, region: string): Option<string> {
    if images == [] then None
    else if images[0].region == region then Some(images[0].image)
    else FindImage(images[1..], region)
  }

  /** `findCloudImage`. */
  method FindCloudImage(images: seq<CloudImage>, region: string) returns (r: Option<string>)
    ensures r == FindImage(images, region)
    ensures match r
            case Some(image) =>
              exists i :: 0 <= i < |images| && images[i].region == region && images[i].image == image
                          && forall j | 0 <= j < i :: images[j].region != region
            case None => forall j | 0 <= j < |images| :: images[j].region != region
  {
    for i := 0 to |images|
      invariant FindImage(images, region) == FindImage(images[i..], region)
      invariant forall j | 0 <= j < i :: images[j].region != region
    {
      if images[i].region == region {
        return Some(images[i].image);
      }
    }
    return None;
  }

  /** The exact region's image, else the one for all regions, else none. */
  function ImageFor(images: seq<CloudImage>, region: string): Option<string> {
    if FindImage(images, region).Some? then FindImage(images, region) else FindImage(images, "all")
  }

  function DatacenterOf(r: CloudRegion, images: seq<CloudImage>): Datacenter {
    Datacenter(r.name, r.description, ImageFor(images, r.name))
  }

  lemma {:induction false} FirstImageIs(images: seq<CloudImage>, region: string, i: nat)
    requires i < |images| && images[i].region == region && forall j | 0 <= j < i :: images[j].region != region
    ensures FindImage(images, region) == Some(images[i].image)
    decreases i
  {
    if i > 0 {
      FirstImageIs(images[1..], region, i - 1);
    }
  }

  lemma {:induction false} NoImageOf(images: seq<CloudImage>, region: string)
    requires forall j | 0 <= j < |images| :: images[j].region != region
    ensures FindImage(images, region) == None
    decreases |images|
  {
    if images != [] {
      NoImageOf(images[1..], region);
    }
  }

  /** The datacenter of a region: its name, its description, and the first image of that very region;
      only where there is none, the first one for all regions; and else none. */
  lemma DatacenterMeans(r: CloudRegion, images: seq<CloudImage>, i: nat)
    requires i < |images| ==> images[i].region == r.name || images[i].region == "all"
    ensures var d := DatacenterOf(r, images); d.code == r.name && d.location == r.description
    ensures i < |images| && images[i].region == r.name && (forall j | 0 <= j < i :: images[j].region != r.name) ==>
              DatacenterOf(r, images).image == Some(images[i].image)
    ensures i < |images| && images[i].region == "all" && (forall j | 0 <= j < i :: images[j].region != "all")
            && (forall j | 0 <= j < |images| :: images[j].region != r.name) ==>
              DatacenterOf(r, images).image == Some(images[i].image)
    ensures (forall j | 0 <= j < |images| :: images[j].region != r.name && images[j].region != "all") ==>
              DatacenterOf(r, images).image == None
  {
    if forall j | 0 <= j < |images| :: images[j].region != r.name {
      NoImageOf(images, r.name);
      if forall j | 0 <= j < |images| :: images[j].region != "all" {
        NoImageOf(images, "all");
      } else if i < |images| && forall j | 0 <= j < i :: images[j].region != "all" {
        FirstImageIs(images, "all", i);
      }
    } else if i < |images| && images[i].region == r.name && forall j | 0 <= j < i :: images[j].region != r.name {
      FirstImageIs(images, r.name, i);
    }
  }

  // ---------- The grouping ----------

  /** The regions of one group, in input order. */
  function InGroup(regions: seq<CloudRegion>, group: string): seq<CloudRegion> {
    if regions == [] then [] else
      InGroup(regions[..|regions| - 1], group)
      + (if regions[|regions| - 1].group == group then [regions[|regions| - 1]] else [])
  }

  function Datacenters(regions: seq<CloudRegion>, images: seq<CloudImage>): seq<Datacenter> {
    seq(|regions|, i requires 0 <= i < |regions| => DatacenterOf(regions[i], images))
  }

  function Codes(regions: seq<CloudRegion>): set<string> {
    set r | r in regions :: r.group
  }

  /** The regions by group, the groups in the order of a list of codes. */
  function ByGroup(regions: seq<CloudRegion>, codes: seq<string>): seq<CloudRegion> {
    if codes == [] then [] else ByGroup(regions, codes[..|codes| - 1]) + InGroup(regions, codes[|codes| - 1])
  }

  /** Insertion into a sorted list, by comparison. */
  function Insert(key: string, sorted: seq<string>): seq<string> {
    if sorted == [] || Less(key, sorted[0]) then [key] + sorted else [sorted[0]] + Insert(key, sorted[1..])
  }

  lemma {:induction false} InsertIncreases(key: string, sorted: seq<string>)
    requires Increasing(sorted) && key !in sorted
    ensures Increasing(Insert(key, sorted))
    ensures forall x :: x in Insert(key, sorted) <==> x == key || x in sorted
    decreases |sorted|
  {
    if sorted == [] {
    } else if Less(key, sorted[0]) {
      forall j | 0 <= j < |sorted| ensures Less(key, sorted[j]) {
        if j > 0 {
          LessIsTransitive(key, sorted[0], sorted[j]);
        }
      }
    } else {
      InsertIncreases(key, sorted[1..]);
      LessIsStrict(key, sorted[0]);
      assert sorted[0] in sorted;
      var rest := Insert(key, sorted[1..]);
      forall j | 0 <= j < |rest| ensures Less(sorted[0], rest[j]) {
        assert rest[j] in rest;
      }
    }
  }

  /** `sort.Strings` on the keys of a map, which come in any order. */
  method SortKeys(keys: set<string>) returns (sorted: seq<string>)
    ensures Increasing(sorted) && forall x :: x in sorted <==> x in keys
  {
    sorted := [];
    var left := keys;
    while left != {}
      invariant left <= keys && Increasing(sorted)
      invariant forall x :: x in sorted <==> x in keys && x !in left
      decreases |left|
    {
      var key :| key in left;
      InsertIncreases(key, sorted);
      sorted, left := Insert(key, sorted), left - {key};
    }
  }

  /** The map of slices after some regions. */
  ghost predicate Grouped(m: map<string, seq<Datacenter>>, regions: seq<CloudRegion>, images: seq<CloudImage>) {
    && m.Keys == Codes(regions)
    && forall g | g in m :: m[g] == Datacenters(InGroup(regions, g), images)
  }

  /** One region appended to the slice of its group. */
  method AddRegion(m: map<string, seq<Datacenter>>, ghost before: seq<CloudRegion>, r: CloudRegion,
                   images: seq<CloudImage>)
    returns (m': map<string, seq<Datacenter>>)
    requires Grouped(m, before, images)
    ensures Grouped(m', before + [r], images)
  {
    var image := FindCloudImage(images, r.name);
    if image.None? {
      image := FindCloudImage(images, "all");
    }
    var slice := if r.group in m then m[r.group] else [];
    NotCodedNotThere(before, r.group);
    OneRegionMore(before, r, images);
    m' := m[r.group := slice + [Datacenter(r.name, r.description, image)]];
  }

  lemma {:induction false} NotCodedNotThere(regions: seq<CloudRegion>, g: string)
    ensures g !in Codes(regions) ==> InGroup(regions, g) == []
    decreases |regions|
  {
    if regions != [] {
      var front := regions[..|regions| - 1];
      NotCodedNotThere(front, g);
      assert regions[|regions| - 1] in regions;
      assert Codes(front) <= Codes(regions);
    }
  }

  lemma OneRegionMore(before: seq<CloudRegion>, r: CloudRegion, images: seq<CloudImage>)
    ensures Codes(before + [r]) == Codes(before) + {r.group}
    ensures forall g :: InGroup(before + [r], g) == InGroup(before, g) + (if r.group == g then [r] else [])
    ensures var slice := InGroup(before, r.group);
            Datacenters(slice + [r], images) == Datacenters(slice, images) + [DatacenterOf(r, images)]
    ensures Datacenters([], images) == []
    ensures forall g | g != r.group :: InGroup(before + [r], g) == InGroup(before, g)
  {
    assert (before + [r])[..|before|] == before;
    CodesGrow(before, r);
  }

  lemma CodesGrow(before: seq<CloudRegion>, r: CloudRegion)
    ensures Codes(before + [r]) == Codes(before) + {r.group}
  {
    assert (before + [r])[|before|] == r;
    assert forall x :: x in before + [r] <==> x in before || x == r;
  }

  function CodesOf(groups: seq<Group>): (codes: seq<string>)
    ensures |codes| == |groups| && forall i | 0 <= i < |groups| :: codes[i] == groups[i].code
  {
    seq(|groups|, i requires 0 <= i < |groups| => groups[i].code)
  }

  /** The region part of `ProviderInfoToSwagger`. */
  method GroupRegions(regions: seq<CloudRegion>, images: seq<CloudImage>) returns (groups: seq<Group>)
    ensures Increasing(CodesOf(groups)) && (forall g :: g in CodesOf(groups) <==> g in Codes(regions))
    ensures forall i | 0 <= i < |groups| ::
            groups[i].datacenters == Datacenters(InGroup(regions, groups[i].code), images)
  {
    var cloudRegions: map<string, seq<Datacenter>> := map[];
    for k := 0 to |regions|
      invariant Grouped(cloudRegions, regions[..k], images)
    {
      assert regions[..k + 1] == regions[..k] + [regions[k]];
      cloudRegions := AddRegion(cloudRegions, regions[..k], regions[k], images);
    }
    assert regions[..|regions|] == regions;
    var mapKeys := SortKeys(cloudRegions.Keys);
    groups := [];
    for i := 0 to |mapKeys|
      invariant CodesOf(groups) == mapKeys[..i]
      invariant forall j | 0 <= j < i :: groups[j].datacenters == Datacenters(InGroup(regions, groups[j].code), images)
    {
      assert mapKeys[i] in mapKeys;
      groups := groups + [Group(mapKeys[i], cloudRegions[mapKeys[i]])];
    }
    assert mapKeys[..|mapKeys|] == mapKeys;
  }

  // ---------- A stable sort ----------

  /** All datacenters, group after group. */
  function Flatten(groups: seq<Group>): seq<Datacenter> {
    if groups == [] then [] else Flatten(groups[..|groups| - 1]) + groups[|groups| - 1].datacenters
  }

  lemma {:induction false} FlattenIsByGroup(groups: seq<Group>, regions: seq<CloudRegion>, images: seq<CloudImage>)
    requires forall i | 0 <= i < |groups| ::
             groups[i].datacenters == Datacenters(InGroup(regions, groups[i].code), images)
    ensures Flatten(groups) == Datacenters(ByGroup(regions, CodesOf(groups)), images)
    decreases |groups|
  {
    if groups == [] {
      assert CodesOf(groups) == [];
    } else {
      var front := groups[..|groups| - 1];
      FlattenIsByGroup(front, regions, images);
      assert CodesOf(groups)[..|groups| - 1] == CodesOf(front);
      DatacentersAppend(ByGroup(regions, CodesOf(front)), InGroup(regions, groups[|groups| - 1].code), images);
    }
  }

  lemma DatacentersAppend(a: seq<CloudRegion>, b: seq<CloudRegion>, images: seq<CloudImage>)
    ensures Datacenters(a + b, images) == Datacenters(a, images) + Datacenters(b, images)
  {
  }

  predicate Sorted(regions: seq<CloudRegion>) {
    forall i, j | 0 <= i < j < |regions| :: !Less(regions[j].group, regions[i].group)
  }

  lemma {:induction false} InGroupHasGroup(regions: seq<CloudRegion>, g: string)
    ensures forall i | 0 <= i < |InGroup(regions, g)| :: InGroup(regions, g)[i].group == g
    decreases |regions|
  {
    if regions != [] {
      InGroupHasGroup(regions[..|regions| - 1], g);
    }
  }

  lemma {:induction false} InGroupAppends(a: seq<CloudRegion>, b: seq<CloudRegion>, g: string)
    ensures InGroup(a + b, g) == InGroup(a, g) + InGroup(b, g)
    decreases |b|
  {
    if b == [] {
      assert a + b == a;
    } else {
      assert (a + b)[..|a + b| - 1] == a + b[..|b| - 1] && (a + b)[|a + b| - 1] == b[|b| - 1];
      InGroupAppends(a, b[..|b| - 1], g);
    }
  }

  lemma {:induction false} InGroupOfOne(regions: seq<CloudRegion>, g: string)
    requires forall i | 0 <= i < |regions| :: regions[i].group == g
    ensures forall h :: InGroup(regions, h) == if h == g then regions else []
    decreases |regions|
  {
    if regions != [] {
      InGroupOfOne(regions[..|regions| - 1], g);
      assert regions == regions[..|regions| - 1] + [regions[|regions| - 1]];
    }
  }

  lemma LastIsNew(codes: seq<string>)
    requires codes != [] && Increasing(codes)
    ensures Increasing(codes[..|codes| - 1]) && codes[|codes| - 1] !in codes[..|codes| - 1]
    ensures forall h :: h in codes <==> h == codes[|codes| - 1] || h in codes[..|codes| - 1]
  {
    var front, last := codes[..|codes| - 1], codes[|codes| - 1];
    LessIsStrict(last, last);
    assert forall i | 0 <= i < |front| :: Less(front[i], last);
    assert codes == front + [last];
  }

  /** Regions put group after group keep, within each listed group, the input order. */
  lemma {:induction false} ByGroupIsStable(regions: seq<CloudRegion>, codes: seq<string>, h: string)
    requires Increasing(codes)
    ensures InGroup(ByGroup(regions, codes), h) == if h in codes then InGroup(regions, h) else []
    decreases |codes|
  {
    if codes != [] {
      var front, last := codes[..|codes| - 1], codes[|codes| - 1];
      LastIsNew(codes);
      ByGroupIsStable(regions, front, h);
      InGroupAppends(ByGroup(regions, front), InGroup(regions, last), h);
      InGroupHasGroup(regions, last);
      InGroupOfOne(InGroup(regions, last), last);
    }
  }

  lemma {:induction false} ByGroupIsSorted(regions: seq<CloudRegion>, codes: seq<string>)
    requires Increasing(codes)
    ensures Sorted(ByGroup(regions, codes))
    ensures forall i | 0 <= i < |ByGroup(regions, codes)| :: ByGroup(regions, codes)[i].group in codes
    decreases |codes|
  {
    if codes != [] {
      var front, last := codes[..|codes| - 1], codes[|codes| - 1];
      var a, b := ByGroup(regions, front), InGroup(regions, last);
      ByGroupIsSorted(regions, front);
      InGroupHasGroup(regions, last);
      LessIsStrict(last, last);
      forall i | 0 <= i < |a| ensures a[i].group in codes && !Less(last, a[i].group) {
        var k :| 0 <= k < |front| && front[k] == a[i].group;
        assert codes[k] == front[k] && Less(codes[k], last);
        LessIsStrict(codes[k], last);
      }
    }
  }

  lemma {:induction false} InGroupMember(regions: seq<CloudRegion>, g: string) returns (i: nat)
    requires InGroup(regions, g) != []
    ensures i < |regions| && regions[i].group == g
    decreases |regions|
  {
    if regions[|regions| - 1].group == g {
      i := |regions| - 1;
    } else {
      i := InGroupMember(regions[..|regions| - 1], g);
    }
  }

  /** In a sorted sequence no group present is above the last one. */
  lemma LastIsGreatest(regions: seq<CloudRegion>, g: string)
    requires Sorted(regions) && InGroup(regions, g) != []
    ensures regions != [] && !Less(regions[|regions| - 1].group, g)
  {
    var i := InGroupMember(regions, g);
    LessIsStrict(g, g);
    assert i < |regions| - 1 ==> !Less(regions[|regions| - 1].group, regions[i].group);
  }

  lemma LastOfGroup(regions: seq<CloudRegion>)
    requires regions != []
    ensures var x := regions[|regions| - 1];
            InGroup(regions, x.group) == InGroup(regions[..|regions| - 1], x.group) + [x]
  {
  }

  lemma LastsAgree(a: seq<CloudRegion>, b: seq<CloudRegion>)
    requires a != [] && Sorted(a) && Sorted(b) && forall g :: InGroup(a, g) == InGroup(b, g)
    ensures b != [] && a[|a| - 1] == b[|b| - 1]
  {
    var x := a[|a| - 1];
    LastOfGroup(a);
    LastIsGreatest(b, x.group);
    var y := b[|b| - 1];
    LastOfGroup(b);
    assert InGroup(a, y.group) == InGroup(b, y.group);
    LastIsGreatest(a, y.group);
    LessIsStrict(x.group, y.group);
    var all := InGroup(a, x.group);
    assert all[|all| - 1] == x;
    assert InGroup(b, x.group) == all;
  }

  lemma CancelLast<T>(p: seq<T>, q: seq<T>, last: seq<T>)
    requires p + last == q + last
    ensures p == q
  {
    assert |p| == |q|;
    assert p == (p + last)[..|p|] && q == (q + last)[..|q|];
  }

  /** A sorted sequence is decided by what it holds of each group: there is one stable sort. */
  lemma {:induction false} StableSortIsUnique(a: seq<CloudRegion>, b: seq<CloudRegion>)
    requires Sorted(a) && Sorted(b) && forall g :: InGroup(a, g) == InGroup(b, g)
    ensures a == b
    decreases |a| + |b|
  {
    if a == [] {
      if b != [] {
        LastsAgree(b, a);
      }
    } else {
      LastsAgree(a, b);
      var x := a[|a| - 1];
      var a', b' := a[..|a| - 1], b[..|b| - 1];
      forall g ensures InGroup(a', g) == InGroup(b', g) {
        assert InGroup(a, g) == InGroup(b, g);
        CancelLast(InGroup(a', g), InGroup(b', g), if x.group == g then [x] else []);
      }
      StableSortIsUnique(a', b');
      assert a == a' + [x] && b == b' + [x];
    }
  }

  lemma SameGroupsSameRegions(a: seq<CloudRegion>, b: seq<CloudRegion>, r: CloudRegion)
    requires InGroup(a, r.group) == InGroup(b, r.group)
    ensures multiset(a)[r] == multiset(b)[r]
  {
    CountInGroup(a, r);
    CountInGroup(b, r);
  }

  lemma {:induction false} CountInGroup(regions: seq<CloudRegion>, r: CloudRegion)
    ensures multiset(regions)[r] == multiset(InGroup(regions, r.group))[r]
    decreases |regions|
  {
    if regions != [] {
      var front, last := regions[..|regions| - 1], regions[|regions| - 1];
      CountInGroup(front, r);
      assert regions == front + [last];
    }
  }

  /** Sorted by group, and within each group in input order. */
  ghost predicate IsStableSort(sorted: seq<CloudRegion>, regions: seq<CloudRegion>) {
    Sorted(sorted) && forall g :: InGroup(sorted, g) == InGroup(regions, g)
  }

  /** A stable sort is a permutation, and there is only one. */
  lemma OneStableSort(a: seq<CloudRegion>, b: seq<CloudRegion>, regions: seq<CloudRegion>)
    requires IsStableSort(a, regions) && IsStableSort(b, regions)
    ensures a == b && multiset(a) == multiset(regions)
  {
    StableSortIsUnique(a, b);
    forall r ensures multiset(a)[r] == multiset(regions)[r] {
      SameGroupsSameRegions(a, regions, r);
    }
  }

  lemma ByGroupIsStableSort(regions: seq<CloudRegion>, codes: seq<string>)
    requires Increasing(codes) && forall g :: g in codes <==> g in Codes(regions)
    ensures IsStableSort(ByGroup(regions, codes), regions)
  {
    ByGroupIsSorted(regions, codes);
    forall g ensures InGroup(ByGroup(regions, codes), g) == InGroup(regions, g) {
      ByGroupIsStable(regions, codes, g);
      NotCodedNotThere(regions, g);
    }
  }

  /** The groups that the method returns are the stable sort of the regions by group code: written
      one after the other, they are the datacenters of that permutation of the input. */
  lemma {:induction false} GroupingIsStableSort(groups: seq<Group>, regions: seq<CloudRegion>,
                                                images: seq<CloudImage>, sorted: seq<CloudRegion>)
    requires Increasing(CodesOf(groups)) && forall g :: g in CodesOf(groups) <==> g in Codes(regions)
    requires forall i | 0 <= i < |groups| ::
             groups[i].datacenters == Datacenters(InGroup(regions, groups[i].code), images)
    requires IsStableSort(sorted, regions)
    ensures Flatten(groups) == Datacenters(sorted, images)
  {
    FlattenIsByGroup(groups, regions, images);
    ByGroupIsStableSort(regions, CodesOf(groups));
    OneStableSort(sorted, ByGroup(regions, CodesOf(groups)), regions);
  }
}
