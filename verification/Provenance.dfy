/** The release's provenance: the document `render_provenance` writes, and the floor proof
    `check_floor_artifact` accepts (scripts/release_compatibility.py). */
module Provenance {
  import opened Results
  import opened Json
  import opened Ordering
  import opened Sorting
  import SemVer
  import Strings = Text

  const API_VERSION := "fabric.fieldstate.nz/v1"
  const PROVENANCE_KIND := "ReleaseProvenance"
  const PUBLISHER_ROLE := "controlPlane"
  const COMPATIBILITY_FILE := "compatibility.yaml"
  const LABEL_SOURCE := "org.opencontainers.image.source"
  const LABEL_REVISION := "org.opencontainers.image.revision"
  const LABEL_VERSION := "org.opencontainers.image.version"

  /** The script's regular expressions, and its reading of a version. */
  datatype Grammar = Grammar(
    isRole: string -> bool, isRepository: string -> bool, isDigest: string -> bool,
    isCommit: string -> bool, isSource: string -> bool, version: string -> Option<SemVer.Version>)

  /** compatibility.yaml's spec, once `load_compatibility` has checked its shape. */
  datatype Spec = Spec(component: string, repository: string, floor: string, publisherContract: nat,
                       minimumReaderContract: nat)

  /** `stated`, as a document. */
  function Stated(spec: Spec): Json {
    Object(map[
      "minimumRollableVersion" := Json.Text(spec.floor),
      "repository" := Json.Text(spec.repository),
      "publisherContract" := Int(spec.publisherContract),
      "minimumReaderContract" := Int(spec.minimumReaderContract)])
  }

  /** `stated(spec) == document`, as Python compares them. */
  predicate StatesSame(spec: Spec, document: Json) {
    && document.Object?
    && document.fields.Keys == {"minimumRollableVersion", "repository", "publisherContract", "minimumReaderContract"}
    && Get(document, "minimumRollableVersion") == Json.Text(spec.floor)
    && Get(document, "repository") == Json.Text(spec.repository)
    && EqualsInt(Get(document, "publisherContract"), spec.publisherContract)
    && EqualsInt(Get(document, "minimumReaderContract"), spec.minimumReaderContract)
  }

  // --- writing -------------------------------------------------------------

  datatype Image = Image(role: string, repository: string, digest: string)

  predicate NotEquals(c: char) { c != '=' }

  predicate NotAt(c: char) { c != '@' }

  /** `parse_image`: `([^=]+)=([^@]+)@(.+)`, each part of its own grammar. */
  function ParseImage(argument: string, grammar: Grammar): Option<Image> {
    var n := Strings.PrefixLength(argument, NotEquals);
    if n == 0 || n == |argument| then None
    else
      var rest := argument[n + 1..];
      var m := Strings.PrefixLength(rest, NotAt);
      if m == 0 || m == |rest| || rest[m + 1..] == "" || '\n' in rest[m + 1..] then None
      else
        var image := Image(argument[..n], rest[..m], rest[m + 1..]);
        if grammar.isRole(image.role) && grammar.isRepository(image.repository) && grammar.isDigest(image.digest)
        then Some(image) else None
  }

  function ParseImages(arguments: seq<string>, grammar: Grammar): (r: Option<seq<Image>>)
    ensures r.Some? ==> |r.value| == |arguments|
    ensures r.Some? ==> forall i :: 0 <= i < |arguments| ==> ParseImage(arguments[i], grammar) == Some(r.value[i])
  {
    if arguments == [] then Some([])
    else
      match (ParseImage(arguments[0], grammar), ParseImages(arguments[1..], grammar))
      case (Some(image), Some(images)) => Some([image] + images)
      case _ => None
  }

  predicate RoleLess(a: Image, b: Image) { StringLess(a.role, b.role) }

  predicate RolesOnce(images: seq<Image>) {
    forall i, j :: 0 <= i < j < |images| ==> images[i].role != images[j].role
  }

  function ImageJson(image: Image): Json {
    Object(map["role" := Json.Text(image.role), "repository" := Json.Text(image.repository),
               "digest" := Json.Text(image.digest)])
  }

  function ImageList(images: seq<Image>): (r: seq<Json>)
    ensures |r| == |images| && forall i :: 0 <= i < |r| ==> r[i] == ImageJson(images[i])
  {
    seq(|images|, i requires 0 <= i < |images| => ImageJson(images[i]))
  }

  function Document(spec: Spec, digest: string, version: string, commit: string, source: string,
                    images: seq<Image>): Json
  {
    Object(map[
      "apiVersion" := Json.Text(API_VERSION),
      "kind" := Json.Text(PROVENANCE_KIND),
      "spec" := Object(map[
        "component" := Json.Text(spec.component),
        "version" := Json.Text(version),
        "source" := Object(map["repository" := Json.Text(source), "commit" := Json.Text(commit)]),
        "images" := List(ImageList(images)),
        "compatibility" := Object(map["file" := Json.Text(COMPATIBILITY_FILE), "digest" := Json.Text(digest)]),
        "contracts" := Stated(spec)])])
  }

  /** `check_floor`. */
  predicate AtOrAbove(version: string, floor: string, grammar: Grammar) {
    && grammar.version(version).Some? && grammar.version(floor).Some?
    && SemVer.Admits(grammar.version(floor).value, grammar.version(version).value)
  }

  /** `render_provenance`, once the source agrees with `spec`; `digest` is that of compatibility.yaml. None
      is a refusal. */
  function Render(spec: Spec, digest: string, version: string, commit: string, source: string,
                  arguments: seq<string>, grammar: Grammar): Option<Json>
  {
    if !AtOrAbove(version, spec.floor, grammar) then None
    else if !grammar.isCommit(commit) || !grammar.isSource(source) || arguments == [] then None
    else
      match ParseImages(arguments, grammar)
      case None => None
      case Some(parsed) =>
        var images := Sort(parsed, RoleLess);
        if !RolesOnce(images) || !exists image :: image in images && image.repository == spec.repository then None
        else Some(Document(spec, digest, version, commit, source, images))
  }

  /** An image argument: a role, an equals sign, a repository, an `@` and a digest. */
  predicate Writes(argument: string, grammar: Grammar, image: Image) {
    && argument == image.role + "=" + (image.repository + "@" + image.digest)
    && image.role != "" && '=' !in image.role && image.repository != "" && '@' !in image.repository
    && image.digest != "" && '\n' !in image.digest
    && grammar.isRole(image.role) && grammar.isRepository(image.repository) && grammar.isDigest(image.digest)
  }

  lemma {:induction false} CutAt(s: string, c: char, p: char -> bool, before: string, after: string)
    requires forall x :: p(x) <==> x != c
    ensures var n := Strings.PrefixLength(s, p);
      n < |s| && s[..n] == before && s[n + 1..] == after <==> s == before + [c] + after && c !in before
  {
    var n := Strings.PrefixLength(s, p);
    if s == before + [c] + after && c !in before {
      Strings.PrefixLengthIs(s, p, |before|);
      assert s[..|before|] == before && s[|before| + 1..] == after;
    }
    if n < |s| {
      assert s == s[..n] + [s[n]] + s[n + 1..] && s[n] == c && c !in s[..n];
    }
  }

  lemma {:induction false} WrittenIsRead(argument: string, grammar: Grammar, image: Image)
    requires Writes(argument, grammar, image)
    ensures ParseImage(argument, grammar) == Some(image)
  {
    var rest := image.repository + "@" + image.digest;
    CutAt(argument, '=', NotEquals, image.role, rest);
    CutAt(rest, '@', NotAt, image.repository, image.digest);
  }

  lemma {:induction false} ReadIsWritten(argument: string, grammar: Grammar, image: Image)
    requires ParseImage(argument, grammar) == Some(image)
    ensures Writes(argument, grammar, image)
  {
    var rest := argument[Strings.PrefixLength(argument, NotEquals) + 1..];
    CutAt(argument, '=', NotEquals, image.role, rest);
    CutAt(rest, '@', NotAt, image.repository, image.digest);
  }

  /** Each argument is read as the one image it is written for, and no other text is read. */
  lemma {:induction false} ParseImageExactly(argument: string, grammar: Grammar, image: Image)
    ensures ParseImage(argument, grammar) == Some(image) <==> Writes(argument, grammar, image)
  {
    if Writes(argument, grammar, image) {
      WrittenIsRead(argument, grammar, image);
    } else if ParseImage(argument, grammar) == Some(image) {
      ReadIsWritten(argument, grammar, image);
    }
  }

  lemma {:induction false} ParseImagesExactly(arguments: seq<string>, grammar: Grammar)
    ensures ParseImages(arguments, grammar).Some? <==>
      forall i :: 0 <= i < |arguments| ==> ParseImage(arguments[i], grammar).Some?
  {
    if arguments == [] {
    } else {
      ParseImagesExactly(arguments[1..], grammar);
    }
  }

  /** The images read from the arguments: of distinct roles, one of them the floor's repository. */
  ghost predicate Publishable(spec: Spec, images: seq<Image>) {
    && images != [] && RolesOnce(images)
    && exists i :: 0 <= i < |images| && images[i].repository == spec.repository
  }

  /** The images in the order of their roles. */
  ghost predicate ByRole(images: seq<Image>, sorted: seq<Image>) {
    && multiset(sorted) == multiset(images)
    && forall i, j :: 0 <= i < j < |sorted| ==> StringLess(sorted[i].role, sorted[j].role)
  }

  /** What a document says. */
  ghost predicate Says(document: Json, spec: Spec, digest: string, version: string, commit: string, source: string,
                       images: seq<Image>)
  {
    && Get(document, "apiVersion") == Json.Text(API_VERSION) && Get(document, "kind") == Json.Text(PROVENANCE_KIND)
    && var body := Get(document, "spec");
    && Get(body, "component") == Json.Text(spec.component) && Get(body, "version") == Json.Text(version)
    && Get(Get(body, "source"), "repository") == Json.Text(source)
    && Get(Get(body, "source"), "commit") == Json.Text(commit)
    && Get(body, "images") == List(ImageList(images))
    && Get(Get(body, "compatibility"), "file") == Json.Text(COMPATIBILITY_FILE)
    && Get(Get(body, "compatibility"), "digest") == Json.Text(digest)
    && body.Object? && Get(body, "contracts") == Stated(spec)
  }

  lemma {:induction false} RoleOrder()
    ensures WeakOrder(RoleLess)
  {
    StringOrder();
  }

  lemma {:induction false} RolesOnceSeparates(images: seq<Image>)
    requires RolesOnce(images)
    ensures Separates(images, RoleLess)
  {
    StringOrder();
    forall x, y | x in images && y in images ensures x == y || RoleLess(x, y) || RoleLess(y, x) {
      if x.role == y.role {
        var i, j :| 0 <= i < |images| && 0 <= j < |images| && images[i] == x && images[j] == y;
        assert i == j;
      }
    }
  }

  lemma {:induction false} RolesOnceCounts(a: seq<Image>, b: seq<Image>)
    requires multiset(a) == multiset(b) && RolesOnce(b)
    ensures RolesOnce(a)
  {
    if a == [] {
    } else {
      var k := FindFirst(a, b);
      RolesOnceCounts(a[1..], Without(b, k));
      forall i | 1 <= i < |a| ensures a[i].role != a[0].role {
        assert a[i] == a[1..][i - 1] && a[1..][i - 1] in multiset(Without(b, k));
        var m :| 0 <= m < |Without(b, k)| && Without(b, k)[m] == a[i];
      }
    }
  }

  /** Two lists of arguments are read as the same images, up to order, or are both refused. */
  ghost predicate SameImages(a: seq<string>, b: seq<string>, grammar: Grammar) {
    var x, y := ParseImages(a, grammar), ParseImages(b, grammar);
    (x.Some? <==> y.Some?) && (x.Some? ==> multiset(x.value) == multiset(y.value))
  }

  lemma {:induction false} ParseImagesFirst(first: string, a: seq<string>, b: seq<string>, grammar: Grammar)
    requires SameImages(a, b, grammar)
    ensures SameImages([first] + a, [first] + b, grammar)
  {
    assert ([first] + a)[1..] == a && ([first] + b)[1..] == b;
  }

  lemma {:induction false} ParseImagesSwap(first: string, second: string, rest: seq<string>, grammar: Grammar)
    ensures SameImages([first, second] + rest, [second, first] + rest, grammar)
  {
    assert ([first, second] + rest)[1..] == [second] + rest && ([second] + rest)[1..] == rest;
    assert ([second, first] + rest)[1..] == [first] + rest && ([first] + rest)[1..] == rest;
  }

  /** Reading an argument first or where it stands is the same. */
  lemma {:induction false} ParseImagesMove(b: seq<string>, k: nat, grammar: Grammar)
    requires k < |b|
    ensures SameImages(b, [b[k]] + Without(b, k), grammar)
  {
    if k == 0 {
      assert [b[k]] + Without(b, k) == b;
    } else {
      var rest := Without(b[1..], k - 1);
      assert b[1..][k - 1] == b[k];
      ParseImagesMove(b[1..], k - 1, grammar);
      ParseImagesFirst(b[0], b[1..], [b[k]] + rest, grammar);
      ParseImagesSwap(b[0], b[k], rest, grammar);
      MovedFirst(b, k);
    }
  }

  lemma {:induction false} MovedFirst(b: seq<string>, k: nat)
    requires 0 < k < |b|
    ensures var rest := Without(b[1..], k - 1);
      && [b[0]] + b[1..] == b && [b[0]] + ([b[k]] + rest) == [b[0], b[k]] + rest
      && [b[k]] + Without(b, k) == [b[k], b[0]] + rest
  {
  }

  lemma {:induction false} ParseImagesSame(a: seq<string>, b: seq<string>, grammar: Grammar)
    requires multiset(a) == multiset(b)
    ensures SameImages(a, b, grammar)
    decreases |a|
  {
    assert |multiset(a)| == |a| && |multiset(b)| == |b|;
    if a == [] {
    } else {
      var k := FindFirst(a, b);
      ParseImagesSame(a[1..], Without(b, k), grammar);
      ParseImagesMove(b, k, grammar);
      ParseImagesFirst(a[0], a[1..], Without(b, k), grammar);
      assert a == [a[0]] + a[1..];
    }
  }

  /** The document does not depend on the order of the image arguments; neither does refusing them. */
  lemma {:induction false} RenderForgetsOrder(spec: Spec, digest: string, version: string, commit: string,
                                              source: string,
                                              a: seq<string>, b: seq<string>, grammar: Grammar)
    requires multiset(a) == multiset(b)
    ensures Render(spec, digest, version, commit, source, a, grammar)
         == Render(spec, digest, version, commit, source, b, grammar)
  {
    assert |multiset(a)| == |a| && |multiset(b)| == |b|;
    ParseImagesSame(a, b, grammar);
    if ParseImages(a, grammar).Some? {
      SortImages(ParseImages(a, grammar).value, ParseImages(b, grammar).value);
    }
  }

  lemma {:induction false} SortedPublishable(spec: Spec, images: seq<Image>)
    ensures var sorted := Sort(images, RoleLess);
      && (Publishable(spec, images) <==>
        images != [] && RolesOnce(sorted) && exists image :: image in sorted && image.repository == spec.repository)
      && (RolesOnce(sorted) ==> ByRole(images, sorted))
  {
    var sorted := Sort(images, RoleLess);
    RoleOrder();
    SortSame(images, RoleLess);
    SortedMember(images, sorted);
    if RolesOnce(images) {
      RolesOnceCounts(sorted, images);
    }
    if RolesOnce(sorted) {
      RolesOnceCounts(images, sorted);
      SortedStrictly(images);
    }
  }

  lemma {:induction false} SortedStrictly(images: seq<Image>)
    requires RolesOnce(Sort(images, RoleLess))
    ensures ByRole(images, Sort(images, RoleLess))
  {
    var sorted := Sort(images, RoleLess);
    RoleOrder();
    SortSame(images, RoleLess);
    SortOrdered(images, RoleLess);
    StringOrder();
    forall i, j | 0 <= i < j < |sorted| ensures StringLess(sorted[i].role, sorted[j].role) {
      assert !RoleLess(sorted[j], sorted[i]);
    }
  }

  lemma {:induction false} DocumentSays(spec: Spec, digest: string, version: string, commit: string, source: string,
                                        images: seq<Image>)
    ensures Says(Document(spec, digest, version, commit, source, images), spec, digest, version, commit, source, images)
  {
  }

  /** A version the floor admits, a full commit, a source, and arguments that can all be read as images of distinct
      roles with the floor's repository among them. */
  ghost predicate Renderable(spec: Spec, version: string, commit: string, source: string, arguments: seq<string>,
                             grammar: Grammar)
  {
    && grammar.version(version).Some? && grammar.version(spec.floor).Some?
    && SemVer.Admits(grammar.version(spec.floor).value, grammar.version(version).value)
    && grammar.isCommit(commit) && grammar.isSource(source)
    && ParseImages(arguments, grammar).Some? && Publishable(spec, ParseImages(arguments, grammar).value)
  }

  lemma {:induction false} RendersSorted(spec: Spec, digest: string, version: string, commit: string, source: string,
                                         arguments: seq<string>, grammar: Grammar)
    ensures var r := Render(spec, digest, version, commit, source, arguments, grammar);
      && (r.Some? <==> Renderable(spec, version, commit, source, arguments, grammar))
      && (r.Some? ==>
        r.value == Document(spec, digest, version, commit, source,
                            Sort(ParseImages(arguments, grammar).value, RoleLess)))
  {
    if ParseImages(arguments, grammar).Some? {
      SortedPublishable(spec, ParseImages(arguments, grammar).value);
    }
  }

  /** A document is rendered exactly where it can be, and then says what was asked, with the images in the order of
      their roles. */
  lemma {:induction false} RenderExactly(spec: Spec, digest: string, version: string, commit: string, source: string,
                                         arguments: seq<string>, grammar: Grammar) returns (sorted: seq<Image>)
    ensures var r := Render(spec, digest, version, commit, source, arguments, grammar);
      && (r.Some? <==> Renderable(spec, version, commit, source, arguments, grammar))
      && (r.Some? ==>
        && ByRole(ParseImages(arguments, grammar).value, sorted)
        && Says(r.value, spec, digest, version, commit, source, sorted))
  {
    sorted := [];
    RendersSorted(spec, digest, version, commit, source, arguments, grammar);
    if ParseImages(arguments, grammar).Some? {
      var images := ParseImages(arguments, grammar).value;
      sorted := Sort(images, RoleLess);
      SortedPublishable(spec, images);
      DocumentSays(spec, digest, version, commit, source, sorted);
    }
  }

  lemma {:induction false} SortImages(x: seq<Image>, y: seq<Image>)
    requires multiset(x) == multiset(y)
    ensures RolesOnce(Sort(x, RoleLess)) <==> RolesOnce(Sort(y, RoleLess))
    ensures RolesOnce(Sort(x, RoleLess)) ==> Sort(x, RoleLess) == Sort(y, RoleLess)
  {
    RoleOrder();
    SortSame(x, RoleLess);
    SortSame(y, RoleLess);
    if RolesOnce(Sort(x, RoleLess)) || RolesOnce(Sort(y, RoleLess)) {
      var once := if RolesOnce(Sort(x, RoleLess)) then Sort(x, RoleLess) else Sort(y, RoleLess);
      RolesOnceCounts(x, once);
      RolesOnceSeparates(x);
      SortForgetsOrder(x, y, RoleLess);
    }
  }

  function RoleOf(image: Json): Json { Get(image, "role") }

  function RepositoryOf(image: Json): Json { Get(image, "repository") }

  function DigestOf(image: Json): Json { Get(image, "digest") }

  // --- accepting -----------------------------------------------------------

  type Roles = map<string, string>

  predicate IsRoleLine(parts: seq<string>, grammar: Grammar) {
    |parts| == 2 && grammar.isRole(parts[0]) && grammar.isRepository(parts[1])
  }

  /** `roles` is what the first `n` lines say, and `at` where each role was read. */
  ghost predicate ReadFirst(lines: seq<seq<string>>, n: nat, roles: Roles, at: map<string, nat>, grammar: Grammar)
    requires n <= |lines|
  {
    && roles.Keys == at.Keys && |roles| == n
    && (forall k :: 0 <= k < n ==> IsRoleLine(lines[k], grammar) && At(lines, k, roles, at))
    && (forall role :: role in at ==> at[role] < n && lines[at[role]] == [role, roles[role]])
  }

  ghost predicate At(lines: seq<seq<string>>, k: nat, roles: Roles, at: map<string, nat>)
    requires k < |lines| && roles.Keys == at.Keys
  {
    |lines[k]| == 2 && lines[k][0] in at && at[lines[k][0]] == k && roles[lines[k][0]] == lines[k][1]
  }

  predicate AllRoleLines(lines: seq<seq<string>>, grammar: Grammar) {
    forall i :: 0 <= i < |lines| ==> IsRoleLine(lines[i], grammar)
  }

  function RoleIn(parts: seq<string>): string { if parts == [] then "" else parts[0] }

  predicate RolesDistinct(lines: seq<seq<string>>) {
    forall i, j :: 0 <= i < j < |lines| ==> RoleIn(lines[i]) != RoleIn(lines[j])
  }

  lemma {:induction false} ReadNext(lines: seq<seq<string>>, n: nat, roles: Roles, at: map<string, nat>,
                                    grammar: Grammar)
    requires n < |lines| && ReadFirst(lines, n, roles, at, grammar)
    requires IsRoleLine(lines[n], grammar) && lines[n][0] !in roles
    ensures ReadFirst(lines, n + 1, roles[lines[n][0] := lines[n][1]], at[lines[n][0] := n], grammar)
  {
    var role := lines[n][0];
    var roles', at' := roles[role := lines[n][1]], at[role := n];
    assert lines[n] == [role, roles'[role]];
    forall k | 0 <= k < n + 1 ensures IsRoleLine(lines[k], grammar) && At(lines, k, roles', at') {
      assert k < n ==> At(lines, k, roles, at);
    }
  }

  /** The lines of a role file, one after another. */
  method ReadLines(lines: seq<seq<string>>, grammar: Grammar) returns (r: Option<Roles>, ghost at: map<string, nat>)
    ensures r.Some? ==> ReadFirst(lines, |lines|, r.value, at, grammar)
    ensures r.None? ==> !AllRoleLines(lines, grammar) || !RolesDistinct(lines)
  {
    var roles: Roles := map[];
    at := map[];
    for i := 0 to |lines|
      invariant ReadFirst(lines, i, roles, at, grammar)
    {
      var parts := lines[i];
      if !IsRoleLine(parts, grammar) {
        return None, at;
      }
      if parts[0] in roles {
        assert RoleIn(lines[at[parts[0]]]) == RoleIn(lines[i]);
        return None, at;
      }
      ReadNext(lines, i, roles, at, grammar);
      roles, at := roles[parts[0] := parts[1]], at[parts[0] := i];
    }
    r := Some(roles);
  }

  /** `read_roles`: `role repository` lines, each role once, the publisher among them. */
  method ReadRoles(lines: seq<seq<string>>, grammar: Grammar) returns (r: Option<Roles>)
    ensures r.Some? <==>
      && AllRoleLines(lines, grammar) && RolesDistinct(lines)
      && exists i :: 0 <= i < |lines| && lines[i][0] == PUBLISHER_ROLE
    ensures r.Some? ==>
      && |r.value| == |lines| && PUBLISHER_ROLE in r.value
      && forall i :: 0 <= i < |lines| ==> lines[i][0] in r.value && r.value[lines[i][0]] == lines[i][1]
  {
    ghost var at;
    r, at := ReadLines(lines, grammar);
    if r.Some? {
      ReadDistinct(lines, r.value, at, grammar);
      if PUBLISHER_ROLE !in r.value {
        return None;
      }
    }
  }

  lemma {:induction false} ReadDistinct(lines: seq<seq<string>>, roles: Roles, at: map<string, nat>, grammar: Grammar)
    requires ReadFirst(lines, |lines|, roles, at, grammar)
    ensures AllRoleLines(lines, grammar) && RolesDistinct(lines)
    ensures forall i :: 0 <= i < |lines| ==> lines[i][0] in roles && roles[lines[i][0]] == lines[i][1]
    ensures PUBLISHER_ROLE in roles <==> exists i :: 0 <= i < |lines| && lines[i][0] == PUBLISHER_ROLE
  {
    forall i, j | 0 <= i < j < |lines| ensures RoleIn(lines[i]) != RoleIn(lines[j]) {
      assert At(lines, i, roles, at) && At(lines, j, roles, at);
    }
    forall i | 0 <= i < |lines| ensures lines[i][0] in roles && roles[lines[i][0]] == lines[i][1] {
      assert At(lines, i, roles, at);
    }
    if PUBLISHER_ROLE in roles {
      assert lines[at[PUBLISHER_ROLE]][0] == PUBLISHER_ROLE;
    }
  }

  /** What was downloaded of the floor release. None is a file that is absent or does not parse. */
  datatype Proof = Proof(
    provenance: Option<Json>,
    compatibilityDigest: string,
    compatibility: Option<Spec>,
    descriptor: Option<Json>,
    images: map<string, Json>)

  /** The recorded images: each role's repository and digest. */
  type Recorded = map<string, (Json, string)>

  /** `images` records exactly the roles published, each once, at its published repository, by a digest. */
  predicate RecordsRoles(images: seq<Json>, roles: Roles, grammar: Grammar) {
    && (forall i :: 0 <= i < |images| ==>
      && images[i].Object?
      && RoleOf(images[i]).Text? && RoleOf(images[i]).s in roles
      && RepositoryOf(images[i]) == Json.Text(roles[RoleOf(images[i]).s])
      && DigestOf(images[i]).Text? && grammar.isDigest(DigestOf(images[i]).s))
    && (forall i, j :: 0 <= i < j < |images| ==> RoleOf(images[i]) != RoleOf(images[j]))
    && (forall role :: role in roles ==> exists i :: 0 <= i < |images| && RoleOf(images[i]) == Json.Text(role))
  }

  /** The descriptor names the recorded images and nothing else. */
  predicate DescribesSame(described: Json, images: seq<Json>, roles: Roles) {
    && described.Object? && described.fields.Keys == roles.Keys
    && forall i :: 0 <= i < |images| && RoleOf(images[i]).Text? && RoleOf(images[i]).s in roles ==>
      Get(described, RoleOf(images[i]).s)
        == Object(map["repository" := RepositoryOf(images[i]), "digest" := DigestOf(images[i])])
  }

  predicate Observed(proof: Proof, role: string, digest: string, source: string, commit: string, floor: string) {
    && role in proof.images
    && Get(proof.images[role], "digest") == Json.Text(digest)
    && Get(Get(proof.images[role], "labels"), LABEL_SOURCE) == Json.Text(source)
    && Get(Get(proof.images[role], "labels"), LABEL_REVISION) == Json.Text(commit)
    && Get(Get(proof.images[role], "labels"), LABEL_VERSION) == Json.Text(floor)
  }

  /** Everything before the images: the component, the version, the source and one commit. */
  predicate IdentityHolds(current: Spec, provenance: Json, source: string, grammar: Grammar) {
    var body := Get(provenance, "spec");
    && grammar.isSource(source)
    && Get(provenance, "apiVersion") == Json.Text(API_VERSION) && Get(provenance, "kind") == Json.Text(PROVENANCE_KIND)
    && body.Object?
    && Get(body, "component") == Json.Text(current.component) && Get(body, "version") == Json.Text(current.floor)
    && Get(Get(body, "source"), "repository") == Json.Text(source)
    && Get(Get(body, "source"), "commit").Text? && grammar.isCommit(Get(Get(body, "source"), "commit").s)
    && Get(body, "images").List?
  }

  /** The floor's own compatibility file, by digest, stating the recorded contracts, which are today's. */
  predicate ContractsHold(current: Spec, proof: Proof, body: Json, grammar: Grammar) {
    && proof.compatibility.Some?
    && Get(Get(body, "compatibility"), "digest") == Json.Text(proof.compatibilityDigest)
    && var spec := proof.compatibility.value;
    && StatesSame(spec, Get(body, "contracts"))
    && spec.component == current.component && spec.repository == current.repository
    && grammar.version(current.floor).Some? && grammar.version(spec.floor).Some?
    && SemVer.Admits(grammar.version(spec.floor).value, grammar.version(current.floor).value)
    && EqualsInt(Get(Get(body, "contracts"), "publisherContract"), current.publisherContract)
    && EqualsInt(Get(Get(body, "contracts"), "minimumReaderContract"), current.minimumReaderContract)
  }

  /** The descriptor is that of the floor, naming the same images. */
  predicate DescriptorHolds(current: Spec, proof: Proof, images: seq<Json>, roles: Roles) {
    && proof.descriptor.Some?
    && Get(proof.descriptor.value, "apiVersion") == Json.Text(API_VERSION)
    && Get(proof.descriptor.value, "kind") == Json.Text("Component")
    && var described := Get(proof.descriptor.value, "spec");
    && Get(described, "name") == Json.Text(current.component) && Get(described, "version") == Json.Text(current.floor)
    && DescribesSame(Get(described, "images"), images, roles)
  }

  /** The registry agrees about every recorded image. */
  predicate RegistryHolds(proof: Proof, images: seq<Json>, source: string, commit: string, floor: string) {
    forall i :: 0 <= i < |images| && RoleOf(images[i]).Text? && DigestOf(images[i]).Text? ==>
      Observed(proof, RoleOf(images[i]).s, DigestOf(images[i]).s, source, commit, floor)
  }

  /** What a floor proof must hold to be accepted. */
  predicate Accepts(current: Spec, proof: Proof, source: string, roles: Roles, grammar: Grammar) {
    && proof.provenance.Some?
    && IdentityHolds(current, proof.provenance.value, source, grammar)
    && var body := Get(proof.provenance.value, "spec");
    && var images := Get(body, "images").items;
    && RecordsRoles(images, roles, grammar)
    && ContractsHold(current, proof, body, grammar)
    && DescriptorHolds(current, proof, images, roles)
    && RegistryHolds(proof, images, source, Get(Get(body, "source"), "commit").s, current.floor)
  }

  // --- the acceptor as it runs ---------------------------------------------

  /** The dictionary holds what the first `n` images record. */
  ghost predicate RecordsFirst(recorded: Recorded, images: seq<Json>, n: nat)
    requires n <= |images|
  {
    && (forall i :: 0 <= i < n ==>
      && RoleOf(images[i]).Text? && RoleOf(images[i]).s in recorded
      && DigestOf(images[i]).Text?
      && recorded[RoleOf(images[i]).s] == (RepositoryOf(images[i]), DigestOf(images[i]).s))
    && (forall role :: role in recorded ==> exists i :: 0 <= i < n && RoleOf(images[i]) == Json.Text(role))
    && (forall i, j :: 0 <= i < j < n ==> RoleOf(images[i]) != RoleOf(images[j]))
  }

  lemma {:induction false} RecordsNext(recorded: Recorded, images: seq<Json>, n: nat)
    requires n < |images| && RecordsFirst(recorded, images, n)
    requires RoleOf(images[n]).Text? && RoleOf(images[n]).s !in recorded && DigestOf(images[n]).Text?
    ensures RecordsFirst(recorded[RoleOf(images[n]).s := (RepositoryOf(images[n]), DigestOf(images[n]).s)], images,
                         n + 1)
  {
    var recorded' := recorded[RoleOf(images[n]).s := (RepositoryOf(images[n]), DigestOf(images[n]).s)];
    forall role | role in recorded' ensures exists i :: 0 <= i < n + 1 && RoleOf(images[i]) == Json.Text(role) {
      if role in recorded {
        var i :| 0 <= i < n && RoleOf(images[i]) == Json.Text(role);
      } else {
        assert RoleOf(images[n]) == Json.Text(role);
      }
    }
  }

  /** The recorded images by role; a role named twice, or by anything but a digest, is refused. A role that
      is not text is never a published one, so it is refused here rather than when roles are compared. */
  method Record(images: seq<Json>, grammar: Grammar) returns (r: Option<Recorded>)
    ensures r.Some? <==>
      && (forall i :: 0 <= i < |images| ==>
        && images[i].Object? && RoleOf(images[i]).Text?
        && DigestOf(images[i]).Text? && grammar.isDigest(DigestOf(images[i]).s))
      && (forall i, j :: 0 <= i < j < |images| ==> RoleOf(images[i]) != RoleOf(images[j]))
    ensures r.Some? ==> RecordsFirst(r.value, images, |images|)
  {
    var recorded: Recorded := map[];
    for i := 0 to |images|
      invariant RecordsFirst(recorded, images, i)
      invariant forall k :: 0 <= k < i ==> images[k].Object? && grammar.isDigest(DigestOf(images[k]).s)
    {
      var image := images[i];
      var role, digest := RoleOf(image), DigestOf(image);
      if !image.Object? || !role.Text? || !digest.Text? || !grammar.isDigest(digest.s) {
        return None;
      }
      if role.s in recorded {
        assert exists k :: 0 <= k < i && RoleOf(images[k]) == Json.Text(role.s);
        return None;
      }
      RecordsNext(recorded, images, i);
      recorded := recorded[role.s := (RepositoryOf(image), digest.s)];
    }
    r := Some(recorded);
  }

  /** The role loop: recorded and published roles are the same, each at its published repository. */
  method RolesMatch(recorded: Recorded, roles: Roles) returns (ok: bool)
    ensures ok <==>
      recorded.Keys == roles.Keys && forall role :: role in roles ==> recorded[role].0 == Json.Text(roles[role])
  {
    var all := SortedSet(roles.Keys + recorded.Keys);
    for i := 0 to |all|
      invariant forall k :: 0 <= k < i ==>
        all[k] in recorded && all[k] in roles && recorded[all[k]].0 == Json.Text(roles[all[k]])
    {
      var role := all[i];
      assert role in all;
      if role !in recorded || role !in roles || recorded[role].0 != Json.Text(roles[role]) {
        return false;
      }
    }
    assert forall role :: role in roles || role in recorded ==> role in all;
    ok := true;
  }

  /** The registry loop. */
  method RegistryMatches(proof: Proof, recorded: Recorded, source: string, commit: string, floor: string)
    returns (ok: bool)
    ensures ok <==> forall role :: role in recorded ==> Observed(proof, role, recorded[role].1, source, commit, floor)
  {
    var all := SortedSet(recorded.Keys);
    for i := 0 to |all|
      invariant forall k :: 0 <= k < i ==>
        all[k] in recorded && Observed(proof, all[k], recorded[all[k]].1, source, commit, floor)
    {
      assert all[i] in all;
      if !Observed(proof, all[i], recorded[all[i]].1, source, commit, floor) {
        return false;
      }
    }
    assert forall role :: role in recorded ==> role in all;
    ok := true;
  }

  /** `described.get("images") == recorded`. */
  predicate DescribesRecorded(described: Json, recorded: Recorded) {
    && described.Object? && described.fields.Keys == recorded.Keys
    && forall role :: role in recorded ==>
      Get(described, role) == Object(map["repository" := recorded[role].0, "digest" := Json.Text(recorded[role].1)])
  }

  lemma {:induction false} RecordedRoles(recorded: Recorded, images: seq<Json>, roles: Roles, grammar: Grammar)
    requires RecordsFirst(recorded, images, |images|)
    requires forall i :: 0 <= i < |images| ==> images[i].Object? && grammar.isDigest(DigestOf(images[i]).s)
    ensures RecordsRoles(images, roles, grammar) <==>
      recorded.Keys == roles.Keys && forall role :: role in roles ==> recorded[role].0 == Json.Text(roles[role])
  {
    if RecordsRoles(images, roles, grammar) {
      forall role ensures role in recorded <==> role in roles {
        if role in roles {
          var i :| 0 <= i < |images| && RoleOf(images[i]) == Json.Text(role);
        }
      }
      forall role | role in roles ensures recorded[role].0 == Json.Text(roles[role]) {
        var i :| 0 <= i < |images| && RoleOf(images[i]) == Json.Text(role);
      }
    }
  }

  lemma {:induction false} RecordedDescribed(recorded: Recorded, images: seq<Json>, roles: Roles, described: Json)
    requires RecordsFirst(recorded, images, |images|) && recorded.Keys == roles.Keys
    ensures DescribesRecorded(described, recorded) <==> DescribesSame(described, images, roles)
  {
    if DescribesSame(described, images, roles) {
      forall role | role in recorded
        ensures Get(described, role)
             == Object(map["repository" := recorded[role].0, "digest" := Json.Text(recorded[role].1)])
      {
        var i :| 0 <= i < |images| && RoleOf(images[i]) == Json.Text(role);
        assert DigestOf(images[i]) == Json.Text(recorded[role].1);
      }
    }
    if DescribesRecorded(described, recorded) {
      forall i | 0 <= i < |images|
        ensures Get(described, RoleOf(images[i]).s)
          == Object(map["repository" := RepositoryOf(images[i]), "digest" := DigestOf(images[i])])
      {
        assert DigestOf(images[i]) == Json.Text(recorded[RoleOf(images[i]).s].1);
      }
    }
  }

  lemma {:induction false} RecordedObserved(recorded: Recorded, images: seq<Json>, proof: Proof, source: string,
                                            commit: string, floor: string)
    requires RecordsFirst(recorded, images, |images|)
    ensures RegistryHolds(proof, images, source, commit, floor) <==>
      forall role :: role in recorded ==> Observed(proof, role, recorded[role].1, source, commit, floor)
  {
    if RegistryHolds(proof, images, source, commit, floor) {
      forall role | role in recorded ensures Observed(proof, role, recorded[role].1, source, commit, floor) {
        var i :| 0 <= i < |images| && RoleOf(images[i]) == Json.Text(role);
      }
    }
  }

  /** `check_floor_artifact`. */
  method CheckFloorArtifact(current: Spec, proof: Proof, source: string, roles: Roles, grammar: Grammar)
    returns (accepted: bool)
    ensures accepted <==> Accepts(current, proof, source, roles, grammar)
  {
    if proof.provenance.None? || !IdentityHolds(current, proof.provenance.value, source, grammar) {
      return false;
    }
    var body := Get(proof.provenance.value, "spec");
    var images := Get(body, "images").items;
    var recorded := Record(images, grammar);
    if recorded.None? {
      return false;
    }
    RecordedRoles(recorded.value, images, roles, grammar);
    var matching := RolesMatch(recorded.value, roles);
    if !matching {
      return false;
    }
    if !ContractsHold(current, proof, body, grammar) {
      return false;
    }
    if proof.descriptor.None? {
      return false;
    }
    var described := Get(proof.descriptor.value, "spec");
    RecordedDescribed(recorded.value, images, roles, Get(described, "images"));
    if Get(proof.descriptor.value, "apiVersion") != Json.Text(API_VERSION)
       || Get(proof.descriptor.value, "kind") != Json.Text("Component")
       || Get(described, "name") != Json.Text(current.component)
       || Get(described, "version") != Json.Text(current.floor)
       || !DescribesRecorded(Get(described, "images"), recorded.value) {
      return false;
    }
    var commit := Get(Get(body, "source"), "commit").s;
    RecordedObserved(recorded.value, images, proof, source, commit, current.floor);
    accepted := RegistryMatches(proof, recorded.value, source, commit, current.floor);
  }

  // --- writer and acceptor agree -------------------------------------------

  /** The proof a completed release leaves: its provenance, the compatibility file it was cut with, a
      descriptor naming its images, and tags and labels that agree. */
  ghost predicate Completed(proof: Proof, spec: Spec, digest: string, version: string, commit: string,
                            source: string, document: Json, images: seq<Image>)
  {
    && proof.provenance == Some(document)
    && proof.compatibilityDigest == digest && proof.compatibility == Some(spec)
    && proof.descriptor.Some?
    && Get(proof.descriptor.value, "apiVersion") == Json.Text(API_VERSION)
    && Get(proof.descriptor.value, "kind") == Json.Text("Component")
    && var described := Get(proof.descriptor.value, "spec");
    && Get(described, "name") == Json.Text(spec.component) && Get(described, "version") == Json.Text(version)
    && Describes(Get(described, "images"), images)
    && forall i :: 0 <= i < |images| ==> Observed(proof, images[i].role, images[i].digest, source, commit, version)
  }

  /** `images` of a descriptor: each role's repository and digest. */
  ghost predicate Describes(described: Json, images: seq<Image>) {
    && described.Object?
    && (forall role :: role in described.fields <==> exists i :: 0 <= i < |images| && images[i].role == role)
    && forall i :: 0 <= i < |images| ==>
      Get(described, images[i].role)
        == Object(map["repository" := Json.Text(images[i].repository), "digest" := Json.Text(images[i].digest)])
  }

  lemma {:induction false} DescribesReordered(described: Json, images: seq<Image>, sorted: seq<Image>)
    requires Describes(described, images) && forall image :: image in images <==> image in sorted
    ensures Describes(described, sorted)
  {
    forall role ensures role in described.fields <==> exists i :: 0 <= i < |sorted| && sorted[i].role == role {
      if i :| 0 <= i < |images| && images[i].role == role {
        assert images[i] in sorted;
      }
      if i :| 0 <= i < |sorted| && sorted[i].role == role {
        assert sorted[i] in images;
      }
    }
    forall i | 0 <= i < |sorted|
      ensures Get(described, sorted[i].role)
        == Object(map["repository" := Json.Text(sorted[i].repository), "digest" := Json.Text(sorted[i].digest)])
    {
      assert sorted[i] in images;
      var k :| 0 <= k < |images| && images[k] == sorted[i];
    }
  }

  lemma {:induction false} PublishesReordered(roles: Roles, images: seq<Image>, sorted: seq<Image>)
    requires Publishes(roles, images) && forall image :: image in images <==> image in sorted
    ensures Publishes(roles, sorted)
  {
    forall i | 0 <= i < |sorted| ensures sorted[i].role in roles && roles[sorted[i].role] == sorted[i].repository {
      assert sorted[i] in images;
    }
    forall role | role in roles ensures exists i :: 0 <= i < |sorted| && sorted[i].role == role {
      var k :| 0 <= k < |images| && images[k].role == role;
      assert images[k] in sorted;
    }
  }

  /** The roles published are those of the images, each where its image is. */
  ghost predicate Publishes(roles: Roles, images: seq<Image>) {
    && (forall i :: 0 <= i < |images| ==> images[i].role in roles && roles[images[i].role] == images[i].repository)
    && (forall role :: role in roles ==> exists i :: 0 <= i < |images| && images[i].role == role)
  }

  /** A release, as its own arguments rendered it and as it was completed. */
  ghost predicate Released(spec: Spec, digest: string, version: string, commit: string, source: string,
                           arguments: seq<string>, grammar: Grammar, proof: Proof, roles: Roles)
  {
    var document := Render(spec, digest, version, commit, source, arguments, grammar);
    var images := ParseImages(arguments, grammar);
    && document.Some? && images.Some?
    && Completed(proof, spec, digest, version, commit, source, document.value, images.value)
    && Publishes(roles, images.value)
  }

  /** The release named is today's floor, of the same component and repository, and contracts have not changed. */
  predicate StillStands(current: Spec, spec: Spec, version: string) {
    && current.component == spec.component && current.repository == spec.repository && current.floor == version
    && current.publisherContract == spec.publisherContract
    && current.minimumReaderContract == spec.minimumReaderContract
  }

  /** A release rendered at any version its own floor admits, and completed, is later accepted as a floor proof
      exactly where that version is then the floor and component, repository and contracts are still the same. */
  lemma {:induction false} RenderedIsAccepted(current: Spec, spec: Spec, digest: string, version: string,
                                              commit: string, source: string, arguments: seq<string>,
                                              grammar: Grammar, proof: Proof, roles: Roles)
    requires Released(spec, digest, version, commit, source, arguments, grammar, proof, roles)
    ensures Accepts(current, proof, source, roles, grammar) <==> StillStands(current, spec, version)
  {
    var document, images := proof.provenance.value, ParseImages(arguments, grammar).value;
    var sorted := RenderExactly(spec, digest, version, commit, source, arguments, grammar);
    SortedMember(images, sorted);
    SortedGrammar(arguments, grammar, images, sorted);
    DocumentHolds(current, document, spec, digest, version, commit, source, sorted, grammar);
    if current.component == spec.component && current.floor == version {
      RenderedContracts(current, spec, proof, Get(document, "spec"), grammar);
      ByRoleOnce(images, sorted);
      ReleasedImages(images, sorted, roles, grammar, proof, Get(Get(proof.descriptor.value, "spec"), "images"), source,
                     commit, version);
    }
  }

  lemma {:induction false} ByRoleOnce(images: seq<Image>, sorted: seq<Image>)
    requires ByRole(images, sorted)
    ensures RolesOnce(sorted)
  {
    StringOrder();
  }

  /** The images of a rendered document, in their order there, meet everything asked of recorded images. */
  lemma {:induction false} ReleasedImages(images: seq<Image>, sorted: seq<Image>, roles: Roles, grammar: Grammar,
                                          proof: Proof,
                                          described: Json, source: string, commit: string, floor: string)
    requires (forall image :: image in images <==> image in sorted) && RolesOnce(sorted)
    requires forall i :: 0 <= i < |sorted| ==> grammar.isDigest(sorted[i].digest)
    requires Publishes(roles, images) && Describes(described, images)
    requires forall i :: 0 <= i < |images| ==> Observed(proof, images[i].role, images[i].digest, source, commit, floor)
    ensures var list := ImageList(sorted);
      && RecordsRoles(list, roles, grammar) && DescribesSame(described, list, roles)
      && RegistryHolds(proof, list, source, commit, floor)
  {
    var list := ImageList(sorted);
    ImageListLists(sorted);
    PublishesReordered(roles, images, sorted);
    DescribesReordered(described, images, sorted);
    RenderedRoles(sorted, list, roles, grammar);
    RenderedDescribed(described, sorted, list, roles);
    forall i | 0 <= i < |sorted| ensures Observed(proof, sorted[i].role, sorted[i].digest, source, commit, floor) {
      assert sorted[i] in images;
    }
    RenderedObserved(proof, sorted, list, source, commit, floor);
  }

  lemma {:induction false} DocumentHolds(current: Spec, document: Json, spec: Spec, digest: string, version: string,
                                         commit: string, source: string, sorted: seq<Image>, grammar: Grammar)
    requires grammar.isSource(source) && grammar.isCommit(commit)
    requires Says(document, spec, digest, version, commit, source, sorted)
    ensures IdentityHolds(current, document, source, grammar) <==>
      current.component == spec.component && current.floor == version
  {
  }

  lemma {:induction false} SortedMember(images: seq<Image>, sorted: seq<Image>)
    requires multiset(images) == multiset(sorted)
    ensures forall image :: image in images <==> image in sorted
  {
    forall image ensures image in images <==> image in sorted {
      assert image in multiset(images) <==> image in multiset(sorted);
    }
  }

  lemma {:induction false} SortedGrammar(arguments: seq<string>, grammar: Grammar, images: seq<Image>,
                                         sorted: seq<Image>)
    requires ParseImages(arguments, grammar) == Some(images)
    requires forall image :: image in images <==> image in sorted
    ensures forall i :: 0 <= i < |sorted| ==> grammar.isDigest(sorted[i].digest)
  {
    forall i | 0 <= i < |sorted| ensures grammar.isDigest(sorted[i].digest) {
      assert sorted[i] in images;
      var k :| 0 <= k < |images| && images[k] == sorted[i];
      assert ParseImage(arguments[k], grammar) == Some(images[k]);
    }
  }

  /** A list of documents, one for each image. */
  ghost predicate Lists(list: seq<Json>, images: seq<Image>) {
    && |list| == |images|
    && forall i :: 0 <= i < |list| ==>
      && list[i].Object? && RoleOf(list[i]) == Json.Text(images[i].role)
      && RepositoryOf(list[i]) == Json.Text(images[i].repository) && DigestOf(list[i]) == Json.Text(images[i].digest)
  }

  lemma {:induction false} ImageListLists(images: seq<Image>)
    ensures Lists(ImageList(images), images)
  {
    forall i | 0 <= i < |images|
      ensures var json := ImageList(images)[i];
        && json.Object? && RoleOf(json) == Json.Text(images[i].role)
        && RepositoryOf(json) == Json.Text(images[i].repository) && DigestOf(json) == Json.Text(images[i].digest)
    {
      assert ImageList(images)[i] == ImageJson(images[i]);
    }
  }

  lemma {:induction false} RenderedRoles(sorted: seq<Image>, list: seq<Json>, roles: Roles, grammar: Grammar)
    requires Lists(list, sorted) && RolesOnce(sorted) && Publishes(roles, sorted)
    requires forall i :: 0 <= i < |sorted| ==> grammar.isDigest(sorted[i].digest)
    ensures RecordsRoles(list, roles, grammar)
  {
    RenderedEveryRole(sorted, list, roles);
    forall i, j | 0 <= i < j < |list| ensures RoleOf(list[i]) != RoleOf(list[j]) {
      assert sorted[i].role != sorted[j].role;
    }
  }

  lemma {:induction false} RenderedEveryRole(sorted: seq<Image>, list: seq<Json>, roles: Roles)
    requires Lists(list, sorted) && Publishes(roles, sorted)
    ensures forall role :: role in roles ==> exists i :: 0 <= i < |list| && RoleOf(list[i]) == Json.Text(role)
  {
    forall role | role in roles ensures exists i :: 0 <= i < |list| && RoleOf(list[i]) == Json.Text(role) {
      var i :| 0 <= i < |sorted| && sorted[i].role == role;
      assert RoleOf(list[i]) == Json.Text(role);
    }
  }

  lemma {:induction false} RenderedContracts(current: Spec, spec: Spec, proof: Proof, body: Json, grammar: Grammar)
    requires body.Object? && Get(body, "contracts") == Stated(spec)
    requires Get(Get(body, "compatibility"), "digest") == Json.Text(proof.compatibilityDigest)
    requires proof.compatibility == Some(spec) && AtOrAbove(current.floor, spec.floor, grammar)
    requires current.component == spec.component
    ensures ContractsHold(current, proof, body, grammar) <==> StillStands(current, spec, current.floor)
  {
    StatedSame(spec);
  }

  /** What a document states is read back as it was stated. */
  lemma {:induction false} StatedSame(spec: Spec)
    ensures StatesSame(spec, Stated(spec))
    ensures Get(Stated(spec), "publisherContract") == Int(spec.publisherContract)
    ensures Get(Stated(spec), "minimumReaderContract") == Int(spec.minimumReaderContract)
  {
  }

  /** And only another statement of the same is equal to it. */
  lemma {:induction false} StatesOnce(a: Spec, b: Spec, document: Json)
    requires StatesSame(a, document) && StatesSame(b, document)
    ensures a.floor == b.floor && a.repository == b.repository
    ensures a.publisherContract == b.publisherContract && a.minimumReaderContract == b.minimumReaderContract
  {
  }

  lemma {:induction false} RenderedDescribed(described: Json, sorted: seq<Image>, list: seq<Json>, roles: Roles)
    requires Lists(list, sorted) && Publishes(roles, sorted) && Describes(described, sorted)
    ensures DescribesSame(described, list, roles)
  {
  }

  lemma {:induction false} RenderedObserved(proof: Proof, sorted: seq<Image>, list: seq<Json>, source: string,
                                            commit: string, floor: string)
    requires Lists(list, sorted)
    requires forall i :: 0 <= i < |sorted| ==> Observed(proof, sorted[i].role, sorted[i].digest, source, commit, floor)
    ensures RegistryHolds(proof, list, source, commit, floor)
  {
  }

  /** A role is recorded at its published repository, by the digest that its floor tag resolves to and that the
      descriptor gives it. */
  predicate Bound(images: seq<Json>, proof: Proof, role: string, repository: string) {
    exists i :: 0 <= i < |images| && BoundBy(images[i], proof, role, repository)
  }

  predicate BoundBy(image: Json, proof: Proof, role: string, repository: string) {
    && RoleOf(image) == Json.Text(role) && RepositoryOf(image) == Json.Text(repository)
    && role in proof.images && Get(proof.images[role], "digest") == DigestOf(image)
    && proof.descriptor.Some?
    && Get(Get(Get(proof.descriptor.value, "spec"), "images"), role)
         == Object(map["repository" := Json.Text(repository), "digest" := DigestOf(image)])
  }

  /** Any acceptance forces the recorded images to be exactly those published: as many as there are roles,
      and each role bound at its repository. */
  lemma {:induction false} AcceptedCoversRoles(current: Spec, proof: Proof, source: string, roles: Roles,
                                               grammar: Grammar)
    requires Accepts(current, proof, source, roles, grammar)
    ensures var images := Get(Get(proof.provenance.value, "spec"), "images").items;
      |images| == |roles| && forall role :: role in roles ==> Bound(images, proof, role, roles[role])
  {
    var images := Get(Get(proof.provenance.value, "spec"), "images").items;
    var commit := Get(Get(Get(proof.provenance.value, "spec"), "source"), "commit").s;
    RolesCounted(images, roles, grammar);
    forall role | role in roles ensures Bound(images, proof, role, roles[role]) {
      RoleBound(images, proof, roles, grammar, role, source, commit, current.floor);
    }
  }

  lemma {:induction false} RoleBound(images: seq<Json>, proof: Proof, roles: Roles, grammar: Grammar, role: string,
                                     source: string, commit: string, floor: string)
    requires RecordsRoles(images, roles, grammar) && RegistryHolds(proof, images, source, commit, floor)
    requires proof.descriptor.Some?
    requires DescribesSame(Get(Get(proof.descriptor.value, "spec"), "images"), images, roles)
    requires role in roles
    ensures Bound(images, proof, role, roles[role])
  {
    var i :| 0 <= i < |images| && RoleOf(images[i]) == Json.Text(role);
    assert BoundBy(images[i], proof, role, roles[role]);
  }

  lemma {:induction false} RolesCounted(images: seq<Json>, roles: Roles, grammar: Grammar)
    requires RecordsRoles(images, roles, grammar)
    ensures |images| == |roles|
  {
    RoleNamesCount(images);
    forall role ensures role in RoleNames(images) <==> role in roles {
      if role in RoleNames(images) {
        var i :| 0 <= i < |images| && RoleOf(images[i]) == Json.Text(role);
      }
    }
    assert RoleNames(images) == roles.Keys;
  }

  function RoleNames(images: seq<Json>): set<string> {
    if images == [] then {}
    else RoleNames(images[1..]) + (if RoleOf(images[0]).Text? then {RoleOf(images[0]).s} else {})
  }

  /** Images that name distinct roles name as many as they are. */
  lemma {:induction false} RoleNamesCount(images: seq<Json>)
    requires forall i :: 0 <= i < |images| ==> RoleOf(images[i]).Text?
    requires forall i, j :: 0 <= i < j < |images| ==> RoleOf(images[i]) != RoleOf(images[j])
    ensures |RoleNames(images)| == |images|
    ensures forall role :: role in RoleNames(images) <==>
      exists i :: 0 <= i < |images| && RoleOf(images[i]) == Json.Text(role)
  {
    if images == [] {
    } else {
      var rest := images[1..];
      RoleNamesCount(rest);
      assert forall i :: 0 <= i < |rest| ==> rest[i] == images[i + 1];
      forall role
        ensures role in RoleNames(images) <==> exists i :: 0 <= i < |images| && RoleOf(images[i]) == Json.Text(role)
      {
        if i :| 0 <= i < |images| && RoleOf(images[i]) == Json.Text(role) {
          assert i > 0 ==> RoleOf(rest[i - 1]) == Json.Text(role);
        }
      }
      assert RoleOf(images[0]).s !in RoleNames(rest);
    }
  }

  /** What an accepted floor was built at, from, and as: the floor's own compatibility file is the one its provenance
      recorded by digest, of this component and repository, at today's contracts and with a floor not above its own;
      and every published role's image carries this source, the one commit the provenance names, and the floor. */
  lemma {:induction false} AcceptedStates(current: Spec, proof: Proof, source: string, roles: Roles, grammar: Grammar)
    returns (commit: string)
    requires Accepts(current, proof, source, roles, grammar)
    ensures grammar.isSource(source) && grammar.isCommit(commit)
    ensures var body := Get(proof.provenance.value, "spec");
      && Get(body, "component") == Json.Text(current.component) && Get(body, "version") == Json.Text(current.floor)
      && Get(Get(body, "source"), "repository") == Json.Text(source)
      && Get(Get(body, "source"), "commit") == Json.Text(commit)
      && Get(Get(body, "compatibility"), "digest") == Json.Text(proof.compatibilityDigest)
    ensures proof.compatibility.Some? && var spec := proof.compatibility.value;
      && spec.component == current.component && spec.repository == current.repository
      && spec.publisherContract == current.publisherContract
      && spec.minimumReaderContract == current.minimumReaderContract
      && AtOrAbove(current.floor, spec.floor, grammar)
    ensures forall role :: role in roles ==> role in proof.images && Labelled(proof.images[role], source, commit,
                                                                              current.floor)
    ensures proof.descriptor.Some? && var described := Get(proof.descriptor.value, "spec");
      && Get(described, "name") == Json.Text(current.component) && Get(described, "version") == Json.Text(current.floor)
  {
    var body := Get(proof.provenance.value, "spec");
    commit := Get(Get(body, "source"), "commit").s;
    var images := Get(body, "images").items;
    forall role | role in roles
      ensures role in proof.images && Labelled(proof.images[role], source, commit, current.floor)
    {
      var i :| 0 <= i < |images| && RoleOf(images[i]) == Json.Text(role);
      assert Observed(proof, role, DigestOf(images[i]).s, source, commit, current.floor);
    }
  }

  /** What the image says it was built from, at which commit, and as what version. */
  predicate Labelled(image: Json, source: string, commit: string, version: string) {
    && Get(Get(image, "labels"), "org.opencontainers.image.source") == Json.Text(source)
    && Get(Get(image, "labels"), "org.opencontainers.image.revision") == Json.Text(commit)
    && Get(Get(image, "labels"), "org.opencontainers.image.version") == Json.Text(version)
  }
}
