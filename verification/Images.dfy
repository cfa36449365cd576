/** Collecting the intermediate images of all build steps, and taking an image URI apart. */
module Images {
  import opened Seqs
  import opened Sorting
  import opened Strings
  import ImageRef
  import Paths

  datatype IntermediateImage = IntermediateImage(uri: string, dockerfile: string)

  datatype Step = Step(name: string, images: seq<IntermediateImage>)

  datatype ImageInfo = ImageInfo(uri: string, registry: string, name: string, tag: string,
                                 dockerfile: string, context: string, buildStep: string)

  // ---------- taking a URI apart ----------

  /** Registry, name and tag: the tag follows the last colon, the registry precedes the last slash
      before it. */
  method ParseImageURI(uri: string, dockerfile: string, buildStep: string) returns (info: ImageInfo)
    ensures info == ParsedURI(uri, dockerfile, buildStep)
  {
    info := ImageInfo(uri, "", "", "", dockerfile, Paths.Dir(dockerfile), buildStep);
    var rest := uri;
    var idx := LastIndex(rest, ':');
    if idx >= 0 {
      info := info.(tag := rest[idx + 1..]);
      rest := rest[..idx];
    }
    assert info.tag == TagOf(uri) && rest == BeforeTag(uri);
    var slash := LastIndex(rest, '/');
    if slash >= 0 {
      info := info.(registry := rest[..slash]);
      info := info.(name := rest[slash + 1..]);
    } else {
      info := info.(name := rest);
    }
    assert info.registry == RegistryOf(rest) && info.name == NameOf(rest);
  }

  function TagOf(uri: string): string {
    if ':' in uri then uri[LastIndex(uri, ':') + 1..] else ""
  }

  function BeforeTag(uri: string): string {
    if ':' in uri then uri[..LastIndex(uri, ':')] else uri
  }

  function RegistryOf(head: string): string {
    if '/' in head then head[..LastIndex(head, '/')] else ""
  }

  function NameOf(head: string): string {
    head[LastIndex(head, '/') + 1..]
  }

  function ParsedURI(uri: string, dockerfile: string, buildStep: string): ImageInfo {
    var head := BeforeTag(uri);
    ImageInfo(uri, RegistryOf(head), NameOf(head), TagOf(uri), dockerfile, Paths.Dir(dockerfile), buildStep)
  }

  lemma HeadAndTag(uri: string)
    requires ':' in uri
    ensures uri == BeforeTag(uri) + ":" + TagOf(uri)
  {
  }

  lemma RegistryAndName(head: string)
    requires '/' in head
    ensures head == RegistryOf(head) + "/" + NameOf(head)
  {
  }

  lemma PrintLength(registry: string, name: string, tag: string)
    ensures |ImageRef.ImageURI(registry, name, tag)| == |registry| + |name| + |tag| + 2
  {
  }

  lemma PartLengths(uri: string)
    ensures |BeforeTag(uri)| + |TagOf(uri)| + (if ':' in uri then 1 else 0) == |uri|
    ensures var head := BeforeTag(uri);
            |RegistryOf(head)| + |NameOf(head)| + (if '/' in head then 1 else 0) == |head|
  {
  }

  /** The parts print back to the URI exactly when its last colon has a slash somewhere before it. */
  lemma LosslessIff(uri: string, dockerfile: string, buildStep: string)
    ensures var info := ParsedURI(uri, dockerfile, buildStep);
            uri == ImageRef.ImageURI(info.registry, info.name, info.tag) <==> ':' in uri && '/' in BeforeTag(uri)
  {
    var head, tag := BeforeTag(uri), TagOf(uri);
    PrintLength(RegistryOf(head), NameOf(head), tag);
    PartLengths(uri);
    if ':' in uri && '/' in head {
      HeadAndTag(uri);
      RegistryAndName(head);
    }
  }

  lemma ColonAfterHost(uri: string, host: string, rest: string)
    requires uri == host + [':'] + rest && '/' !in host && ':' !in rest
    ensures BeforeTag(uri) == host && TagOf(uri) == rest && RegistryOf(host) == "" && NameOf(host) == host
  {
    LastIndexOf(host, ':', rest);
    assert uri[|host|] == ':' && uri[..|host|] == host && uri[|host| + 1..] == rest;
  }

  /** For example "localhost:5000/zig": the colon of a port, with no tag after the image, is taken for
      the tag's. */
  lemma PortIsTakenForATag(host: string, rest: string)
    requires '/' !in host && ':' !in rest
    ensures var uri := host + ":" + rest;
            var info := ParsedURI(uri, "", "");
            && (info.registry, info.name, info.tag) == ("", host, rest)
            && ImageRef.ImageURI(info.registry, info.name, info.tag) != uri
  {
    ColonAfterHost(host + ":" + rest, host, rest);
    LosslessIff(host + ":" + rest, "", "");
  }

  lemma PartsOf(registry: string, image: string, tag: string)
    requires '/' !in image && ':' !in tag
    ensures var uri := ImageRef.ImageURI(registry, image, tag);
            (RegistryOf(BeforeTag(uri)), NameOf(BeforeTag(uri)), TagOf(uri)) == (registry, image, tag)
  {
    var uri := ImageRef.ImageURI(registry, image, tag);
    var head := registry + ['/'] + image;
    assert uri == head + [':'] + tag;
    LastIndexOf(head, ':', tag);
    assert uri[|head|] == ':' && uri[..|head|] == head && uri[|head| + 1..] == tag;
    LastIndexOf(registry, '/', image);
    assert head[|registry|] == '/' && head[..|registry|] == registry && head[|registry| + 1..] == image;
  }

  /** On printed references with a plain tag both parsers find the same three parts. */
  lemma AgreesWithParseDockerImage(registry: string, image: string, tag: string, dockerfile: string, buildStep: string,
                                   containsDomain: string -> bool)
    requires ImageRef.ValidRegistry(registry)
    requires image != "" && '/' !in image && ':' !in image
    requires tag != "" && '/' !in tag && ':' !in tag && '\n' !in tag
    ensures var uri := ImageRef.ImageURI(registry, image, tag);
            var info := ParsedURI(uri, dockerfile, buildStep);
            (info.registry, info.name, info.tag) == (registry, image, tag) &&
            ImageRef.Parse(uri, containsDomain) ==
            Some(ImageRef.ImageInfo(ImageRef.ServerOf(registry, containsDomain), info.registry, info.name, info.tag))
  {
    PartsOf(registry, image, tag);
    ImageRef.ParseUndoesPrint(registry, image, tag, containsDomain);
  }

  // ---------- collecting ----------

  predicate HasSubstring(s: string, sub: string) {
    sub <= s || (s != "" && HasSubstring(s[1..], sub))
  }

  lemma {:induction false} HasSubstringIff(s: string, sub: string)
    ensures HasSubstring(s, sub) <==> exists i :: 0 <= i && i + |sub| <= |s| && s[i..][..|sub|] == sub
  {
    if sub <= s {
      assert s[0..][..|sub|] == sub;
    } else if s != "" {
      HasSubstringIff(s[1..], sub);
      if i :| 0 <= i && i + |sub| <= |s[1..]| && s[1..][i..][..|sub|] == sub {
        assert s[i + 1..] == s[1..][i..];
      }
      if i :| 0 <= i && i + |sub| <= |s| && s[i..][..|sub|] == sub {
        assert i > 0 && s[1..][i - 1..] == s[i..];
      }
    }
  }

  const MARKER := "containifyci/"

  /** One image as one step produces it. */
  datatype Produced = Produced(step: string, image: IntermediateImage)

  function ProducedBy(step: Step, n: nat): (r: seq<Produced>)
    requires n <= |step.images|
    ensures |r| == n && forall i :: 0 <= i < n ==> r[i] == Produced(step.name, step.images[i])
  {
    if n == 0 then [] else ProducedBy(step, n - 1) + [Produced(step.name, step.images[n - 1])]
  }

  /** All images in the order the steps produce them. */
  function AllProduced(steps: seq<Step>): seq<Produced> {
    if steps == [] then [] else
      AllProduced(steps[..|steps| - 1]) + ProducedBy(steps[|steps| - 1], |steps[|steps| - 1].images|)
  }

  predicate Has(all: seq<Produced>, uri: string) {
    exists i :: 0 <= i < |all| && all[i].image.uri == uri
  }

  /** The productions kept: the first with each qualifying URI. */
  function Kept(all: seq<Produced>): seq<Produced> {
    if all == [] then [] else KeptWith(Kept(all[..|all| - 1]), all[|all| - 1])
  }

  function KeptWith(earlier: seq<Produced>, p: Produced): seq<Produced> {
    if !HasSubstring(p.image.uri, MARKER) || Has(earlier, p.image.uri) then earlier else earlier + [p]
  }

  function InfoOf(p: Produced): ImageInfo {
    ParsedURI(p.image.uri, p.image.dockerfile, p.step)
  }

  function Described(kept: seq<Produced>): seq<ImageInfo> {
    Map(InfoOf, kept)
  }

  lemma DescribedUri(kept: seq<Produced>, i: nat)
    requires i < |kept|
    ensures Described(kept)[i].uri == kept[i].image.uri
  {
  }

  lemma KeptSnoc(all: seq<Produced>, p: Produced)
    ensures Kept(all + [p]) == KeptWith(Kept(all), p)
  {
    assert (all + [p])[..|all|] == all;
  }

  lemma HasSnoc(all: seq<Produced>, p: Produced, uri: string)
    ensures Has(all + [p], uri) <==> Has(all, uri) || p.image.uri == uri
  {
    assert (all + [p])[|all|] == p;
    if Has(all, uri) {
      var i :| 0 <= i < |all| && all[i].image.uri == uri;
      assert (all + [p])[i].image.uri == uri;
    }
  }

  ghost predicate FirstWith(all: seq<Produced>, i: nat, p: Produced) {
    i < |all| && all[i] == p && forall j :: 0 <= j < i ==> all[j].image.uri != p.image.uri
  }

  ghost predicate KeptUri(all: seq<Produced>, uri: string) {
    HasSubstring(uri, MARKER) && Has(all, uri)
  }

  lemma {:induction false} KeptUris(all: seq<Produced>, uri: string)
    ensures Has(Kept(all), uri) <==> KeptUri(all, uri)
  {
    if all != [] {
      var n := |all| - 1;
      KeptUris(all[..n], uri);
      HasSnoc(Kept(all[..n]), all[n], uri);
      HasSnoc(all[..n], all[n], uri);
      assert all == all[..n] + [all[n]];
    }
  }

  /** Each kept production is the first of its URI. */
  lemma {:induction false} KeptAreFirst(all: seq<Produced>, k: nat)
    requires k < |Kept(all)|
    ensures exists i: nat :: FirstWith(all, i, Kept(all)[k])
  {
    var n := |all| - 1;
    if k < |Kept(all[..n])| {
      KeptAreFirst(all[..n], k);
      var i: nat :| FirstWith(all[..n], i, Kept(all[..n])[k]);
      assert FirstWith(all, i, Kept(all)[k]);
    } else {
      KeptUris(all[..n], all[n].image.uri);
      assert forall j :: 0 <= j < n ==> all[..n][j] == all[j];
      assert !Has(all[..n], all[n].image.uri);
      assert FirstWith(all, n, all[n]);
      assert Kept(all)[k] == all[n];
    }
  }

  lemma {:induction false} KeptAreDistinct(all: seq<Produced>)
    ensures forall i, j :: 0 <= i < j < |Kept(all)| ==> Kept(all)[i].image.uri != Kept(all)[j].image.uri
  {
    if all != [] {
      KeptAreDistinct(all[..|all| - 1]);
    }
  }

  predicate ByUri(a: ImageInfo, b: ImageInfo) {
    StringLess(a.uri, b.uri)
  }

  lemma ByUriIsOrder()
    ensures StrictWeakOrder(ByUri)
  {
    forall x: ImageInfo
      ensures !ByUri(x, x)
    {
      StringIrreflexive(x.uri);
    }
    forall x: ImageInfo, y: ImageInfo, z: ImageInfo | ByUri(x, y)
      ensures ByUri(y, z) ==> ByUri(x, z)
      ensures ByUri(x, z) || ByUri(z, y)
    {
      StringBetween(x.uri, y.uri, z.uri);
      if ByUri(y, z) {
        StringTransitive(x.uri, y.uri, z.uri);
      }
    }
  }

  /** What the loops know: the kept images so far, and exactly their URIs marked as seen. */
  ghost predicate Progress(all: seq<Produced>, seen: map<string, bool>, images: seq<ImageInfo>) {
    && images == Described(Kept(all))
    && (forall uri :: uri in seen <==> Has(Kept(all), uri))
    && forall uri :: uri in seen ==> seen[uri]
  }

  method Consider(ghost all: seq<Produced>, seen: map<string, bool>, images: seq<ImageInfo>, img: IntermediateImage,
                  name: string)
    returns (seen': map<string, bool>, images': seq<ImageInfo>)
    requires Progress(all, seen, images)
    ensures Progress(all + [Produced(name, img)], seen', images')
  {
    ghost var p := Produced(name, img);
    KeptSnoc(all, p);
    var uri := img.uri;
    if !HasSubstring(uri, MARKER) || (uri in seen && seen[uri]) {
      return seen, images;
    }
    seen' := seen[uri := true];
    var info := ParseImageURI(uri, img.dockerfile, name);
    images' := images + [info];
    DescribedSnoc(Kept(all), p);
    SeenSnoc(Kept(all), p, seen);
  }

  lemma DescribedSnoc(kept: seq<Produced>, p: Produced)
    ensures Described(kept + [p]) == Described(kept) + [InfoOf(p)]
  {
    MapSnoc(InfoOf, kept, p);
  }

  lemma SeenSnoc(kept: seq<Produced>, p: Produced, seen: map<string, bool>)
    requires forall uri :: uri in seen <==> Has(kept, uri)
    ensures forall uri :: uri in seen[p.image.uri := true] <==> Has(kept + [p], uri)
  {
    forall uri
      ensures Has(kept + [p], uri) <==> Has(kept, uri) || p.image.uri == uri
    {
      HasSnoc(kept, p, uri);
    }
  }

  /** The two nested loops over steps and their images, then the sort. */
  method CollectImages(steps: seq<Step>) returns (images: seq<ImageInfo>)
    ensures IsSorting(Described(Kept(AllProduced(steps))), images, ByUri)
  {
    images := GatherImages(steps);
    ByUriIsOrder();
    images := SortSlice(images, ByUri);
  }

  method GatherImages(steps: seq<Step>) returns (images: seq<ImageInfo>)
    ensures images == Described(Kept(AllProduced(steps)))
  {
    var seen: map<string, bool> := map[];
    images := [];
    for i := 0 to |steps|
      invariant Progress(AllProduced(steps[..i]), seen, images)
    {
      seen, images := ConsiderStep(steps[i], seen, images, AllProduced(steps[..i]));
      assert steps[..i + 1][..i] == steps[..i];
    }
    assert steps[..|steps|] == steps;
  }

  method ConsiderStep(step: Step, seen: map<string, bool>, images: seq<ImageInfo>, ghost before: seq<Produced>)
    returns (seen': map<string, bool>, images': seq<ImageInfo>)
    requires Progress(before, seen, images)
    ensures Progress(before + ProducedBy(step, |step.images|), seen', images')
  {
    seen', images' := seen, images;
    NilRight(before);
    for k := 0 to |step.images|
      invariant Progress(before + ProducedBy(step, k), seen', images')
    {
      Assoc(before, ProducedBy(step, k), [Produced(step.name, step.images[k])]);
      seen', images' := Consider(before + ProducedBy(step, k), seen', images', step.images[k], step.name);
    }
  }

  predicate HasUri(images: seq<ImageInfo>, uri: string) {
    exists i :: 0 <= i < |images| && images[i].uri == uri
  }

  /** The record of the first production of its URI. */
  ghost predicate FromFirst(all: seq<Produced>, info: ImageInfo) {
    exists i: nat :: i < |all| && FirstWith(all, i, all[i]) && info == InfoOf(all[i])
  }

  lemma KeptHasNoTies(kept: seq<Produced>, images: seq<ImageInfo>)
    requires forall i, j :: 0 <= i < j < |kept| ==> kept[i].image.uri != kept[j].image.uri
    requires |images| == |kept| && forall i :: 0 <= i < |kept| ==> images[i].uri == kept[i].image.uri
    ensures NoTies(images, ByUri)
  {
    forall i, j | 0 <= i < j < |images|
      ensures ByUri(images[i], images[j]) || ByUri(images[j], images[i])
    {
      StringTotal(images[i].uri, images[j].uri);
    }
  }

  lemma DescribedUris(kept: seq<Produced>, uri: string)
    ensures HasUri(Described(kept), uri) <==> Has(kept, uri)
  {
    var images := Described(kept);
    if Has(kept, uri) {
      var i :| 0 <= i < |kept| && kept[i].image.uri == uri;
      DescribedUri(kept, i);
    }
    if HasUri(images, uri) {
      var i :| 0 <= i < |images| && images[i].uri == uri;
      DescribedUri(kept, i);
    }
  }

  lemma DescribedAreFirst(all: seq<Produced>, k: nat)
    requires k < |Kept(all)|
    ensures FromFirst(all, Described(Kept(all))[k])
  {
    var kept := Kept(all);
    KeptAreFirst(all, k);
    var i: nat :| FirstWith(all, i, kept[k]);
    assert all[i] == kept[k];
  }

  /** The collected list: strictly sorted by URI, its URIs exactly the qualifying ones that some step
      produces, each with the details of the first step that does; there is only one such list. */
  lemma CollectedImages(steps: seq<Step>, images: seq<ImageInfo>)
    requires IsSorting(Described(Kept(AllProduced(steps))), images, ByUri)
    ensures StrictlySorted(images, ByUri)
    ensures forall uri :: HasUri(images, uri) <==> KeptUri(AllProduced(steps), uri)
    ensures forall k :: 0 <= k < |images| ==> FromFirst(AllProduced(steps), images[k])
    ensures forall other :: IsSorting(Described(Kept(AllProduced(steps))), other, ByUri) ==> other == images
  {
    var all := AllProduced(steps);
    var kept := Described(Kept(all));
    KeptAreDistinct(all);
    forall i | 0 <= i < |kept|
      ensures kept[i].uri == Kept(all)[i].image.uri
    {
      DescribedUri(Kept(all), i);
    }
    KeptHasNoTies(Kept(all), kept);
    ByUriIsOrder();
    SortingWithoutTies(kept, images, ByUri);
    forall uri
      ensures HasUri(images, uri) <==> KeptUri(all, uri)
    {
      KeptUris(all, uri);
      DescribedUris(Kept(all), uri);
      SameUris(images, kept, uri);
    }
    forall k | 0 <= k < |images|
      ensures FromFirst(all, images[k])
    {
      assert images[k] in multiset(kept);
      var i :| 0 <= i < |kept| && kept[i] == images[k];
      DescribedAreFirst(all, i);
    }
    forall other | IsSorting(kept, other, ByUri)
      ensures other == images
    {
      SortingWithoutTies(kept, other, ByUri);
    }
  }

  lemma SameUris(a: seq<ImageInfo>, b: seq<ImageInfo>, uri: string)
    requires multiset(a) == multiset(b)
    ensures HasUri(a, uri) <==> HasUri(b, uri)
  {
    if HasUri(a, uri) {
      UriCarriesOver(a, b, uri);
    }
    if HasUri(b, uri) {
      UriCarriesOver(b, a, uri);
    }
  }

  lemma UriCarriesOver(a: seq<ImageInfo>, b: seq<ImageInfo>, uri: string)
    requires multiset(a) == multiset(b) && HasUri(a, uri)
    ensures HasUri(b, uri)
  {
    var i :| 0 <= i < |a| && a[i].uri == uri;
    assert a[i] in multiset(b);
    var k :| 0 <= k < |b| && b[k] == a[i];
  }

  // ---------- the collected list, in terms of the steps ----------

  /** Step `i` yields at place `k` an image with this URI. */
  predicate Yields(steps: seq<Step>, i: int, k: int, uri: string) {
    0 <= i < |steps| && 0 <= k < |steps[i].images| && steps[i].images[k].uri == uri
  }

  /** Where the list of all productions has image `k` of step `i`. */
  function PlaceOf(steps: seq<Step>, i: nat, k: nat): nat
    requires i < |steps|
  {
    |AllProduced(steps[..i])| + k
  }

  lemma {:induction false} AtPlace(steps: seq<Step>, i: nat, k: nat)
    requires i < |steps| && k < |steps[i].images|
    ensures PlaceOf(steps, i, k) < |AllProduced(steps)|
    ensures AllProduced(steps)[PlaceOf(steps, i, k)] == Produced(steps[i].name, steps[i].images[k])
  {
    var n := |steps| - 1;
    if i < n {
      AtPlace(steps[..n], i, k);
      assert steps[..n][..i] == steps[..i];
    }
  }

  lemma {:induction false} ProducedIs(steps: seq<Step>, at: nat) returns (i: nat, k: nat)
    requires at < |AllProduced(steps)|
    ensures i < |steps| && k < |steps[i].images| && PlaceOf(steps, i, k) == at
  {
    var n := |steps| - 1;
    if at < |AllProduced(steps[..n])| {
      i, k := ProducedIs(steps[..n], at);
      assert steps[..n][..i] == steps[..i];
    } else {
      i, k := n, at - |AllProduced(steps[..n])|;
    }
  }

  lemma {:induction false} PlacesGrow(steps: seq<Step>, i: nat, j: nat)
    requires i < j < |steps|
    ensures |AllProduced(steps[..i])| + |steps[i].images| <= |AllProduced(steps[..j])|
  {
    assert steps[..j][..j - 1] == steps[..j - 1] && steps[..j][j - 1] == steps[j - 1];
    if i < j - 1 {
      PlacesGrow(steps, i, j - 1);
    }
  }

  /** The URIs stand in strict lexicographic order. */
  lemma CollectedInOrder(steps: seq<Step>, images: seq<ImageInfo>, i: nat, j: nat)
    requires IsSorting(Described(Kept(AllProduced(steps))), images, ByUri) && i < j < |images|
    ensures StringLess(images[i].uri, images[j].uri)
  {
    CollectedImages(steps, images);
    assert ByUri(images[i], images[j]);
  }

  /** A URI is collected exactly when some step yields it and it contains "containifyci/". */
  lemma CollectedIff(steps: seq<Step>, images: seq<ImageInfo>, uri: string)
    requires IsSorting(Described(Kept(AllProduced(steps))), images, ByUri)
    ensures (exists m :: 0 <= m < |images| && images[m].uri == uri) <==>
            (exists i :: 0 <= i && i + 13 <= |uri| && uri[i..][..13] == "containifyci/") &&
            exists i, k :: Yields(steps, i, k, uri)
  {
    CollectedImages(steps, images);
    HasSubstringIff(uri, "containifyci/");
    assert HasUri(images, uri) <==> KeptUri(AllProduced(steps), uri);
    YieldedIff(steps, uri);
  }

  lemma YieldedIff(steps: seq<Step>, uri: string)
    ensures Has(AllProduced(steps), uri) <==> exists i, k :: Yields(steps, i, k, uri)
  {
    var all := AllProduced(steps);
    if Has(all, uri) {
      var at :| 0 <= at < |all| && all[at].image.uri == uri;
      var i, k := ProducedIs(steps, at);
      AtPlace(steps, i, k);
      assert Yields(steps, i, k, uri);
    }
    if i, k :| Yields(steps, i, k, uri) {
      AtPlace(steps, i, k);
    }
  }

  lemma FirstYields(steps: seq<Step>, i: nat, k: nat, j: nat, l: nat, uri: string)
    requires i < |steps| && k < |steps[i].images|
    requires FirstWith(AllProduced(steps), PlaceOf(steps, i, k), Produced(steps[i].name, steps[i].images[k]))
    requires uri == steps[i].images[k].uri && (j < i || (j == i && l < k))
    ensures !Yields(steps, j, l, uri)
  {
    if Yields(steps, j, l, uri) {
      AtPlace(steps, j, l);
      if j < i {
        PlacesGrow(steps, j, i);
      }
    }
  }

  /** Each collected image is described by the first step, and its first image, to yield the URI: the
      Dockerfile, its directory as context, the step's name, and the parts of the URI. */
  lemma CollectedFrom(steps: seq<Step>, images: seq<ImageInfo>, m: nat) returns (i: nat, k: nat)
    requires IsSorting(Described(Kept(AllProduced(steps))), images, ByUri) && m < |images|
    ensures Yields(steps, i, k, images[m].uri)
    ensures forall j, l :: j < i || (j == i && l < k) ==> !Yields(steps, j, l, images[m].uri)
    ensures images[m].dockerfile == steps[i].images[k].dockerfile
    ensures images[m].context == Paths.Dir(steps[i].images[k].dockerfile)
    ensures images[m].buildStep == steps[i].name
  {
    CollectedImages(steps, images);
    i, k := FirstOf(steps, images[m]);
    forall j: nat, l: nat | j < i || (j == i && l < k)
      ensures !Yields(steps, j, l, images[m].uri)
    {
      FirstYields(steps, i, k, j, l, images[m].uri);
    }
  }

  lemma FirstOf(steps: seq<Step>, info: ImageInfo) returns (i: nat, k: nat)
    requires FromFirst(AllProduced(steps), info)
    ensures i < |steps| && k < |steps[i].images|
    ensures FirstWith(AllProduced(steps), PlaceOf(steps, i, k), Produced(steps[i].name, steps[i].images[k]))
    ensures info == InfoOf(Produced(steps[i].name, steps[i].images[k]))
  {
    var all := AllProduced(steps);
    var at: nat :| at < |all| && FirstWith(all, at, all[at]) && info == InfoOf(all[at]);
    i, k := ProducedIs(steps, at);
    AtPlace(steps, i, k);
  }
}
