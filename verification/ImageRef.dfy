/** Image references: the regular expression that takes them apart, the loop that fills the parsed
    record from its groups, and the printer the parser undoes. */
module ImageRef {
  import opened Seqs
  import opened Strings
  import Paths

  const DEFAULT_DOCKER_ADDRESS := "docker.io"

  datatype ImageInfo = ImageInfo(server: string, registry: string, image: string, tag: string)

  /** What the named groups matched; a group that took no part matched "". */
  datatype Match = Match(registry: string, image: string, tag: string)

  // ---------- the regular expression ----------

  /** The registry group: one or more non-empty segments between slashes. */
  predicate ValidRegistry(registry: string) {
    forall i :: 0 <= i < |Paths.Split(registry)| ==> Paths.Split(registry)[i] != ""
  }

  function Before(registry: string): string { if registry == "" then "" else registry + "/" }

  function After(tag: string): string { if tag == "" then "" else ":" + tag }

  /** `m` is one way the expression matches the whole of `s`. */
  predicate IsMatch(s: string, m: Match) {
    && (m.registry == "" || ValidRegistry(m.registry))
    && m.image != "" && ':' !in m.image
    && '\n' !in m.tag
    && s == Before(m.registry) + m.image + After(m.tag)
  }

  /** Leftmost-first matching takes the optional registry when it can and repeats its greedy segments
      as often as it can, which is the longest registry of any match. */
  ghost predicate IsPreferred(s: string, m: Match) {
    && IsMatch(s, m)
    && forall other :: IsMatch(s, other) && other != m ==> |other.registry| < |m.registry|
  }

  /** The image and tag groups over what follows the registry. */
  function ImageAndTag(r: string): Option<(string, string)> {
    var c := IndexOf(r, ':');
    if c == |r| then
      if r == "" then None else Some((r, ""))
    else if c == 0 || r[c + 1..] == "" || '\n' in r[c + 1..] then None
    else Some((r[..c], r[c + 1..]))
  }

  /** A registry can end at the slash before position `p`. */
  predicate CutAt(s: string, p: nat) {
    0 < p <= |s| && s[p - 1] == '/' && ValidRegistry(s[..p - 1]) && ImageAndTag(s[p..]).Some?
  }

  function CutMatch(s: string, p: nat): Match
    requires CutAt(s, p)
  {
    Match(s[..p - 1], ImageAndTag(s[p..]).value.0, ImageAndTag(s[p..]).value.1)
  }

  /** Trying the slashes of `s` before position `p`, from the last one to the first, then no registry. */
  function Longest(s: string, p: nat): Option<Match>
    requires p <= |s|
  {
    if p == 0 then
      match ImageAndTag(s) case None => None case Some(rest) => Some(Match("", rest.0, rest.1))
    else if CutAt(s, p) then Some(CutMatch(s, p))
    else Longest(s, p - 1)
  }

  function FindSubmatch(s: string): Option<Match> { Longest(s, |s|) }

  lemma ImageAndTagFound(image: string, tag: string)
    requires image != "" && ':' !in image && '\n' !in tag
    ensures ImageAndTag(image + After(tag)) == Some((image, tag))
  {
    var r := image + After(tag);
    IndexOfConcat(image, ':', After(tag));
    if tag == "" {
      NilRight(image);
    } else {
      assert r[..|image|] == image && r[|image| + 1..] == tag;
    }
  }

  lemma ImageAndTagSpell(r: string)
    requires ImageAndTag(r).Some?
    ensures var (image, tag) := ImageAndTag(r).value;
            image != "" && ':' !in image && '\n' !in tag && r == image + After(tag)
  {
    var c := IndexOf(r, ':');
    if c == |r| {
      assert r[..c] == r;
      NilRight(r);
    } else {
      assert r == r[..c] + ":" + r[c + 1..];
    }
  }

  lemma ImageAndTagAre(r: string, image: string, tag: string)
    ensures ImageAndTag(r) == Some((image, tag)) <==>
            image != "" && ':' !in image && '\n' !in tag && r == image + After(tag)
  {
    if image != "" && ':' !in image && '\n' !in tag && r == image + After(tag) {
      ImageAndTagFound(image, tag);
    }
    if ImageAndTag(r).Some? {
      ImageAndTagSpell(r);
    }
  }

  lemma ValidIsNotEmpty(registry: string)
    requires ValidRegistry(registry)
    ensures registry != "" && registry[0] != '/'
  {
    var parts := Paths.Split(registry);
    assert parts[0] != "";
  }

  lemma MatchWithRegistry(s: string, m: Match)
    requires IsMatch(s, m) && m.registry != ""
    ensures CutAt(s, |m.registry| + 1) && m == CutMatch(s, |m.registry| + 1)
  {
    var p := |m.registry| + 1;
    Assoc(m.registry + "/", m.image, After(m.tag));
    assert s == (m.registry + "/") + (m.image + After(m.tag));
    assert s[p..] == m.image + After(m.tag) && s[..p - 1] == m.registry;
    ImageAndTagFound(m.image, m.tag);
  }

  lemma CutIsMatch(s: string, p: nat)
    requires CutAt(s, p)
    ensures IsMatch(s, CutMatch(s, p)) && CutMatch(s, p).registry != ""
  {
    var m := CutMatch(s, p);
    ImageAndTagSpell(s[p..]);
    ValidIsNotEmpty(s[..p - 1]);
    assert s == (m.registry + "/") + s[p..];
    Assoc(m.registry + "/", m.image, After(m.tag));
  }

  lemma MatchWithoutRegistry(s: string, m: Match)
    requires m.registry == ""
    ensures IsMatch(s, m) <==> ImageAndTag(s) == Some((m.image, m.tag))
  {
    ImageAndTagAre(s, m.image, m.tag);
    assert "" + m.image == m.image;
  }

  lemma {:induction false} LongestWithoutRegistry(s: string, p: nat)
    requires p <= |s| && ImageAndTag(s).Some?
    ensures Longest(s, p).Some?
    ensures Longest(s, p).value.registry == "" ==> Longest(s, p) == Longest(s, 0)
  {
    if p > 0 {
      if CutAt(s, p) {
        CutIsMatch(s, p);
      } else {
        LongestWithoutRegistry(s, p - 1);
      }
    }
  }

  /** A cut at `q` is found unless a later one is. */
  lemma {:induction false} LongestIsLater(s: string, p: nat, q: nat)
    requires q <= p <= |s| && CutAt(s, q)
    ensures Longest(s, p).Some?
    ensures Longest(s, p).value == CutMatch(s, q) || |Longest(s, p).value.registry| >= q
  {
    if p > q && !CutAt(s, p) {
      LongestIsLater(s, p - 1, q);
    }
  }

  lemma LongestIsBest(s: string, other: Match)
    requires IsMatch(s, other)
    ensures FindSubmatch(s).Some?
    ensures other != FindSubmatch(s).value ==> |other.registry| < |FindSubmatch(s).value.registry|
  {
    if other.registry == "" {
      MatchWithoutRegistry(s, other);
      LongestWithoutRegistry(s, |s|);
    } else {
      MatchWithRegistry(s, other);
      LongestIsLater(s, |s|, |other.registry| + 1);
    }
  }

  lemma {:induction false} LongestMatches(s: string, p: nat)
    requires p <= |s| && Longest(s, p).Some?
    ensures IsMatch(s, Longest(s, p).value)
  {
    if p == 0 {
      MatchWithoutRegistry(s, Longest(s, p).value);
    } else if CutAt(s, p) {
      CutIsMatch(s, p);
    } else {
      LongestMatches(s, p - 1);
    }
  }

  /** The scan finds the preferred match, and fails exactly when there is none at all. */
  lemma FindSubmatchIsPreferred(s: string, m: Match)
    ensures FindSubmatch(s) == Some(m) <==> IsPreferred(s, m)
    ensures FindSubmatch(s) == None ==> !IsMatch(s, m)
  {
    if IsMatch(s, m) {
      LongestIsBest(s, m);
    }
    if FindSubmatch(s).Some? {
      var found := FindSubmatch(s).value;
      LongestMatches(s, |s|);
      forall other | IsMatch(s, other) && other != found
        ensures |other.registry| < |found.registry|
      {
        LongestIsBest(s, other);
      }
    }
  }

  // ---------- filling the record ----------

  function ServerOf(registry: string, containsDomain: string -> bool): string {
    var srv := Paths.Split(registry)[0];
    if registry != "" && containsDomain(srv) then srv else DEFAULT_DOCKER_ADDRESS
  }

  function InfoOf(m: Match, containsDomain: string -> bool): ImageInfo {
    ImageInfo(ServerOf(m.registry, containsDomain), m.registry, m.image, if m.tag == "" then "latest" else m.tag)
  }

  function Parse(s: string, containsDomain: string -> bool): Option<ImageInfo> {
    match FindSubmatch(s) case None => None case Some(m) => Some(InfoOf(m, containsDomain))
  }

  /** The loop over the match groups, in the order the expression names them. */
  method ParseDockerImage(s: string, containsDomain: string -> bool) returns (info: Option<ImageInfo>)
    ensures info == Parse(s, containsDomain)
  {
    var found := FindSubmatch(s);
    if found == None {
      return None;
    }
    var groups := [s, found.value.registry, found.value.image, found.value.tag];
    var names := ["", "registry", "image", "tag"];
    var r := ImageInfo("", "", "", "");
    for i := 0 to |groups|
      invariant i >= 2 ==> r.registry == groups[1] && r.server == ServerOf(groups[1], containsDomain)
      invariant i >= 3 ==> r.image == groups[2]
      invariant i >= 4 ==> r.tag == groups[3]
    {
      var name := groups[i];
      if names[i] == "registry" {
        r := r.(registry := name);
        if r.registry != "" {
          var srv := Paths.Split(r.registry)[0];
          r := r.(server := if containsDomain(srv) then srv else DEFAULT_DOCKER_ADDRESS);
        } else {
          r := r.(server := DEFAULT_DOCKER_ADDRESS);
        }
      } else if names[i] == "image" {
        r := r.(image := name);
      } else if names[i] == "tag" {
        r := r.(tag := name);
      }
    }
    if r.registry == "" {
      r := r.(server := DEFAULT_DOCKER_ADDRESS);
    }
    if r.tag == "" {
      r := r.(tag := "latest");
    }
    info := Some(r);
  }

  /** The server of an accepted reference: the first segment of its registry if that is a domain, and
      the default otherwise or without a registry; a missing tag is read as "latest". */
  lemma ServerAndTag(s: string, containsDomain: string -> bool, first: string, rest: string)
    requires Parse(s, containsDomain).Some? && '/' !in first
    requires var registry := Parse(s, containsDomain).value.registry;
             registry == first || registry == first + "/" + rest
    ensures var info := Parse(s, containsDomain).value;
            && info.server == (if info.registry != "" && containsDomain(first) then first else "docker.io")
            && exists tag :: IsPreferred(s, Match(info.registry, info.image, tag)) &&
                             info.tag == if tag == "" then "latest" else tag
  {
    var m := FindSubmatch(s).value;
    FindSubmatchIsPreferred(s, m);
    assert IsPreferred(s, Match(m.registry, m.image, m.tag));
    if m.registry == first {
      Paths.SplitWhole(first);
    } else {
      Paths.SplitSlash(first, rest);
      Paths.SplitWhole(first);
    }
  }

  /** Every text of the expression's shape is accepted, with a registry at least as long. */
  lemma EveryReferenceIsAccepted(s: string, registry: string, image: string, tag: string,
                                 containsDomain: string -> bool)
    requires registry == "" || "" !in Paths.Split(registry)
    requires image != "" && ':' !in image && '\n' !in tag
    requires s == (if registry == "" then "" else registry + "/") + image + (if tag == "" then "" else ":" + tag)
    ensures Parse(s, containsDomain).Some? && |Parse(s, containsDomain).value.registry| >= |registry|
  {
    assert registry != "" ==> ValidRegistry(registry);
    LongestIsBest(s, Match(registry, image, tag));
  }

  /** And only such texts are; these are the parts found. */
  lemma AcceptedIsAReference(s: string, containsDomain: string -> bool) returns (tag: string)
    requires Parse(s, containsDomain).Some?
    ensures var info := Parse(s, containsDomain).value;
            && (info.registry == "" || "" !in Paths.Split(info.registry))
            && info.image != "" && ':' !in info.image && '\n' !in tag
            && s == (if info.registry == "" then "" else info.registry + "/") + info.image
                    + (if tag == "" then "" else ":" + tag)
            && info.tag == if tag == "" then "latest" else tag
  {
    LongestMatches(s, |s|);
    tag := FindSubmatch(s).value.tag;
  }

  // ---------- printing and parsing back ----------

  function ImageURI(registry: string, image: string, tag: string): string {
    registry + "/" + image + ":" + tag
  }

  lemma ParsesTo(s: string, m: Match, containsDomain: string -> bool)
    requires IsPreferred(s, m)
    ensures Parse(s, containsDomain) == Some(InfoOf(m, containsDomain))
  {
    FindSubmatchIsPreferred(s, m);
  }

  /** A match with no slash after its registry is the preferred one. */
  lemma SlashFreeTailIsPreferred(s: string, m: Match)
    requires IsMatch(s, m) && m.registry != ""
    requires '/' !in m.image && '/' !in m.tag
    ensures IsPreferred(s, m)
  {
    forall other | IsMatch(s, other) && other != m
      ensures |other.registry| < |m.registry|
    {
      MatchWithRegistry(s, m);
      if |other.registry| > |m.registry| {
        MatchWithRegistry(s, other);
        SlashIsInTail(s, m, |other.registry|);
      } else if |other.registry| == |m.registry| {
        SameRegistrySameMatch(s, m, other);
      }
    }
  }

  lemma SlashIsInTail(s: string, m: Match, p: nat)
    requires IsMatch(s, m) && m.registry != "" && |m.registry| < p < |s| && s[p] == '/'
    ensures '/' in m.image || '/' in m.tag
  {
    var tail := m.image + After(m.tag);
    Assoc(m.registry + "/", m.image, After(m.tag));
    assert s == (m.registry + "/") + tail;
    assert tail[p - |m.registry| - 1] == '/';
    assert '/' in tail;
    SlashInParts(m.image, m.tag);
  }

  lemma SlashInParts(image: string, tag: string)
    requires '/' in image + After(tag)
    ensures '/' in image || '/' in tag
  {
    assert '/' in image || '/' in After(tag);
    assert After(tag) == "" || After(tag) == [':'] + tag;
  }

  /** Parsing undoes printing. */
  lemma ParseUndoesPrint(registry: string, image: string, tag: string, containsDomain: string -> bool)
    requires ValidRegistry(registry)
    requires image != "" && '/' !in image && ':' !in image
    requires tag != "" && '/' !in tag && '\n' !in tag
    ensures Parse(ImageURI(registry, image, tag), containsDomain) ==
            Some(ImageInfo(ServerOf(registry, containsDomain), registry, image, tag))
  {
    var m := Match(registry, image, tag);
    var s := ImageURI(registry, image, tag);
    ValidIsNotEmpty(registry);
    assert s == Before(registry) + image + After(tag);
    SlashFreeTailIsPreferred(s, m);
    ParsesTo(s, m, containsDomain);
  }

  /** The match of the printed form of an accepted reference that has a registry. */
  lemma ReprintedMatch(s: string, m: Match)
    requires IsPreferred(s, m) && m.registry != "" && m.tag == ""
    ensures IsPreferred(ImageURI(m.registry, m.image, "latest"), m.(tag := "latest"))
  {
    var t, latest := ImageURI(m.registry, m.image, "latest"), m.(tag := "latest");
    assert t == Before(m.registry) + m.image + After("latest");
    assert IsMatch(t, latest);
    NilRight(m.registry + "/" + m.image);
    assert t == s + ":latest";
    forall other | IsMatch(t, other) && other != latest
      ensures |other.registry| < |m.registry|
    {
      NoLongerRegistry(s, t, m, other);
      if |other.registry| == |m.registry| {
        SameRegistrySameMatch(t, latest, other);
      }
    }
  }

  lemma SameRegistrySameMatch(t: string, a: Match, b: Match)
    requires IsMatch(t, a) && IsMatch(t, b) && a.registry != "" && |a.registry| == |b.registry|
    ensures a == b
  {
    MatchWithRegistry(t, a);
    MatchWithRegistry(t, b);
  }

  lemma NoLongerRegistry(s: string, t: string, m: Match, other: Match)
    requires IsPreferred(s, m) && m.registry != "" && m.tag == "" && t == s + ":latest"
    requires IsMatch(t, other)
    ensures |other.registry| <= |m.registry|
  {
    if |other.registry| > |m.registry| {
      var p := |other.registry| + 1;
      MatchWithRegistry(t, other);
      LongerCutStays(s, t, m, p);
      CutIsMatch(s, p);
    }
  }

  /** A cut of the printed form after the registry would have been one of the original. */
  lemma LongerCutStays(s: string, t: string, m: Match, p: nat)
    requires IsMatch(s, m) && m.registry != "" && m.tag == "" && t == s + ":latest"
    requires CutAt(t, p) && p > |m.registry| + 1
    ensures CutAt(s, p)
  {
    SlashIsBefore(s, t, p - 1);
    TailStarts(s, t, p);
    TailIsColonFree(s, m, p);
    var tail := s[p..];
    ImageAndTagFound(tail, "");
    NilRight(tail);
    assert s[..p - 1] == t[..p - 1];
  }

  lemma SlashIsBefore(s: string, t: string, p: nat)
    requires t == s + ":latest" && p < |t| && t[p] == '/'
    ensures p < |s|
  {
    assert '/' !in ":latest";
    assert forall i :: |s| <= i < |t| ==> t[i] == ":latest"[i - |s|];
  }

  lemma TailStarts(s: string, t: string, p: nat)
    requires t == s + ":latest" && 0 < p <= |s|
    requires ImageAndTag(t[p..]).Some?
    ensures p < |s|
  {
    var tail := s[p..];
    assert t[p..] == tail + ":latest";
    assert tail == "" ==> tail + ":latest" == ":latest";
    assert IndexOf(":latest", ':') == 0;
  }

  lemma TailIsColonFree(s: string, m: Match, p: nat)
    requires IsMatch(s, m) && m.registry != "" && m.tag == "" && |m.registry| < p <= |s|
    ensures ':' !in s[p..]
  {
    assert s == m.registry + "/" + m.image;
    assert s[p..] == m.image[p - |m.registry| - 1..];
  }

  /** Printing an accepted reference and parsing it again gives the same record, the defaulted tag
      included, exactly when it has a registry. */
  lemma PrintIsIdempotentIff(s: string, containsDomain: string -> bool)
    requires Parse(s, containsDomain).Some?
    ensures var info := Parse(s, containsDomain).value;
            Parse(ImageURI(info.registry, info.image, info.tag), containsDomain) == Some(info) <==> info.registry != ""
  {
    var m := FindSubmatch(s).value;
    var info := Parse(s, containsDomain).value;
    var t := ImageURI(info.registry, info.image, info.tag);
    FindSubmatchIsPreferred(s, m);
    if m.registry == "" {
      WithoutRegistryGainsASlash(m.image, info.tag, containsDomain);
    } else if m.tag == "" {
      ReprintedMatch(s, m);
      ParsesTo(t, m.(tag := "latest"), containsDomain);
    } else {
      assert t == Before(m.registry) + m.image + After(m.tag);
      ParsesTo(t, m, containsDomain);
    }
  }

  lemma RegistryComesFirst(t: string, other: Match)
    requires IsMatch(t, other) && other.registry != ""
    ensures t[0] != '/'
  {
    MatchWithRegistry(t, other);
    ValidIsNotEmpty(other.registry);
    assert t[0] == other.registry[0];
  }

  /** Without a registry the printed form starts with a slash, which ends up in the image. */
  lemma WithoutRegistryGainsASlash(image: string, tag: string, containsDomain: string -> bool)
    requires image != "" && ':' !in image && tag != "" && '\n' !in tag
    ensures Parse(ImageURI("", image, tag), containsDomain) ==
            Some(ImageInfo(DEFAULT_DOCKER_ADDRESS, "", "/" + image, tag))
  {
    var t, m := ImageURI("", image, tag), Match("", "/" + image, tag);
    assert t == "" + ("/" + image) + (":" + tag);
    forall other | IsMatch(t, other)
      ensures other == m
    {
      if other.registry != "" {
        RegistryComesFirst(t, other);
      }
      MatchWithoutRegistry(t, other);
      MatchWithoutRegistry(t, m);
    }
    MatchWithoutRegistry(t, m);
    ImageAndTagFound("/" + image, tag);
    ParsesTo(t, m, containsDomain);
  }
}
