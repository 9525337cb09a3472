/** The content store of the cert tracker: the Cert, Tag, Resource, Course
    and Section records, the derivation of a cert's path and route, the
    queries over certs, and the store itself with the operations that
    write to it. The route registry (the endpoint names of the web
    application's URL map) is passed in as a set of strings. */
module Models {
  import opened Seqs
  import opened Text

  /** The unique form fields the pre-checks report. */
  datatype UniqueField = Name | Code | Url | Title
  {
    /** The word the views print before " must be unique". */
    function Label(): string
    {
      match this
      case Name => "Name"
      case Code => "Code"
      case Url => "URL"
      case Title => "Title"
    }
  }

  datatype Tag = Tag(name: string)

  datatype Cert = Cert(
    id: nat,
    path: string,
    route: string,
    name: string,
    code: string,
    date: string,
    headImg: string,
    badgeImg: string,
    examDate: string,
    tags: seq<Tag>,
    published: bool)

  /** The validated fields of the cert creation form; `tags` is the raw
      comma-separated text. */
  datatype CertForm = CertForm(
    name: string,
    code: string,
    date: string,
    headImg: string,
    badgeImg: string,
    examDate: string,
    tags: string)

  /** The `data` dictionary a resource or a course is built from. The
      `has_og_data` key is only ever set to True, so `hasOgData == false`
      stands for the key being absent (a NULL column). */
  datatype ResourceData = ResourceData(
    certId: nat,
    resourceType: string,
    url: string,
    title: string,
    image: string,
    description: string,
    siteLogo: string,
    siteName: string,
    hasOgData: bool)

  /** A row of the resources table. */
  datatype Resource = Resource(id: nat, data: ResourceData, timestamp: string)

  /** A row of the courses table: the wrapped resource is stored whole
      (pickled), and `certId` is the cert whose course list holds it. */
  datatype Course = Course(id: nat, certId: nat, resource: ResourceData, complete: Option<bool>)

  /** The `data` dictionary a section is built from. */
  datatype SectionData = SectionData(courseId: nat, number: int, title: string)

  /** A row of the sections table; the two flags are NULL until updated. */
  datatype Section = Section(
    id: nat,
    courseId: nat,
    number: int,
    title: string,
    cardsMade: Option<bool>,
    complete: Option<bool>,
    timestamp: string)

  /** How a write that ends in a commit turns out: committed, refused by a
      unique column, or never reached because the parent row it is
      attached to does not exist (the lookup returned None). */
  datatype Write = Written | IntegrityError | ParentMissing

  // ---------------------------------------------------------------------
  // Path and route derivation

  /** The name as it appears in a path: `"_".join(name.split(" ")).lower()`.
      Every space becomes an underscore and ASCII letters are lower-cased. */
  function FormatName(name: string): (r: string)
    ensures |r| == |name|
    ensures forall i :: 0 <= i < |name| ==> r[i] == LowerChar(if name[i] == ' ' then '_' else name[i])
  {
    JoinSplitReplaces(name, ' ', '_');
    Lower(Join(Split(name, ' '), '_'))
  }

  /** The code as it appears in a path: formatted like a name, then with
      every hyphen removed. */
  function FormatCode(code: string): (r: string)
    ensures forall c :: c in r ==> c != '-' && c != ' ' && !IsUpper(c)
    ensures |r| <= |code|
    ensures IsSubseq(r, FormatName(code))
    ensures forall x :: x != '-' ==> multiset(r)[x] == multiset(FormatName(code))[x]
  {
    var f := FormatName(code);
    assert forall c :: c in f ==> c != ' ' && !IsUpper(c);
    Drop(f, '-')
  }

  /** The `{name}_{code}` part shared by a cert's path and route. */
  function Slug(name: string, code: string): (r: string)
    ensures forall k :: 0 <= k < |r| ==> r[k] != ' ' && !IsUpper(r[k])
  {
    var n, c := FormatName(name), FormatCode(code);
    assert forall k :: 0 <= k < |n| ==> n[k] != ' ' && !IsUpper(n[k]);
    assert forall k :: 0 <= k < |c| ==> c[k] in c;
    n + "_" + c
  }

  /** The URL path of a cert: a leading slash, then the slug, with no
      space and no upper-case letter anywhere. */
  function DerivePath(name: string, code: string): (r: string)
    ensures |r| > 0 && r[0] == '/'
  {
    "/" + Slug(name, code)
  }

  /** The endpoint name of a cert's page in the `data` blueprint: "data."
      then the slug, with no space and no upper-case letter anywhere. */
  function DeriveRoute(name: string, code: string): (r: string)
    ensures |r| >= 5 && r[..5] == "data."
  {
    "data." + Slug(name, code)
  }

  /** Two certs clash on their paths exactly when they clash on their
      routes: both are the shared slug behind a fixed prefix. */
  lemma PathRouteAgree(n1: string, c1: string, n2: string, c2: string)
    ensures DerivePath(n1, c1) == DerivePath(n2, c2) <==> DeriveRoute(n1, c1) == DeriveRoute(n2, c2)
  {
    var s1, s2 := Slug(n1, c1), Slug(n2, c2);
    if DerivePath(n1, c1) == DerivePath(n2, c2) {
      assert s1 == DerivePath(n1, c1)[1..] && s2 == DerivePath(n2, c2)[1..];
    }
    if DeriveRoute(n1, c1) == DeriveRoute(n2, c2) {
      assert s1 == DeriveRoute(n1, c1)[5..] && s2 == DeriveRoute(n2, c2)[5..];
    }
  }

  /** The name "Test" with code "tst-101" gives path "/test_tst101" and
      route "data.test_tst101". Taking the inputs as parameters pinned by
      `requires` keeps the verifier from unrolling the recursive formatting
      functions on literal arguments. */
  lemma DerivationExample(name: string, code: string)
    requires name == "Test" && code == "tst-101"
    ensures DerivePath(name, code) == "/test_tst101"
    ensures DeriveRoute(name, code) == "data.test_tst101"
  {
    FormatNameTest(name);
    FormatCodeTest(code);
    assert Slug(name, code) == "test" + "_" + "tst101";
  }

  // Taking the inputs as parameters pinned by `requires` keeps the verifier
  // from unrolling the recursive formatting functions on literal arguments.
  lemma FormatNameTest(name: string)
    requires name == "Test"
    ensures FormatName(name) == "test"
  {
    var f := FormatName(name);
    assert f[0] == 't' && f[1] == 'e' && f[2] == 's' && f[3] == 't';
  }

  // Taking the inputs as parameters pinned by `requires` keeps the verifier
  // from unrolling the recursive formatting functions on literal arguments.
  lemma FormatCodeTest(code: string)
    requires code == "tst-101"
    ensures FormatCode(code) == "tst101"
  {
    var f := FormatName(code);
    assert f[0] == 't' && f[1] == 's' && f[2] == 't' && f[3] == '-';
    assert f[4] == '1' && f[5] == '0' && f[6] == '1';
    var a, b := "tst", "101";
    assert f == a + "-" + b;
    DropAppend(a + "-", b, '-');
    DropAppend(a, "-", '-');
    DropAbsent(a, '-');
    DropAbsent(b, '-');
    assert Drop("-", '-') == [];
  }

  /** Names and codes that differ only in letter case give the same path
      and route, although neither the names nor the codes are equal. */
  lemma CaseCollisionExample()
    ensures "A B" != "a b" && "X" != "x"
    ensures DerivePath("A B", "X") == DerivePath("a b", "x")
    ensures DeriveRoute("A B", "X") == DeriveRoute("a b", "x")
  {
    var a, b := FormatName("A B"), FormatName("a b");
    assert a[0] == b[0] && a[1] == b[1] && a[2] == b[2];
    assert a == b;
    var x, y := FormatName("X"), FormatName("x");
    assert x[0] == y[0];
    assert x == y;
    assert FormatCode("X") == FormatCode("x");
    assert Slug("A B", "X") == Slug("a b", "x");
  }

  // ---------------------------------------------------------------------
  // Cert creation

  /** One tag per comma-separated piece of the form text, each stripped of
      surrounding whitespace, in input order. */
  function ParseTags(text: string): (r: seq<Tag>)
    ensures |r| == |Split(text, ',')|
    ensures forall k :: 0 <= k < |r| ==> ',' !in r[k].name
    ensures forall k :: 0 <= k < |r| && r[k].name != [] ==>
              !IsSpace(r[k].name[0]) && !IsSpace(r[k].name[|r[k].name| - 1])
  {
    var pieces := Split(text, ',');
    StripPieces(pieces, ',');
    seq(|pieces|, k requires 0 <= k < |pieces| => Tag(Strip(pieces[k])))
  }

  function TagNames(tags: seq<Tag>): seq<string>
  {
    seq(|tags|, k requires 0 <= k < |tags| => tags[k].name)
  }

  /** When no piece of the text has whitespace around it, the tag names
      joined with commas give the text back. */
  lemma {:induction false} TagsRoundTrip(text: string)
    ensures (forall k :: 0 <= k < |Split(text, ',')| ==> Strip(Split(text, ',')[k]) == Split(text, ',')[k])
            ==> Join(TagNames(ParseTags(text)), ',') == text
  {
    var pieces := Split(text, ',');
    var tags := ParseTags(text);
    if forall k :: 0 <= k < |pieces| ==> Strip(pieces[k]) == pieces[k] {
      assert TagNames(tags) == pieces;
      JoinSplit(text, ',');
    }
  }

  /** The record `Cert.create_new` builds from a form: derived path and
      route, parsed tags, and published exactly when some registered
      endpoint equals the route. */
  function CertFromForm(id: nat, form: CertForm, registry: set<string>): (c: Cert)
    ensures c.published <==> DeriveRoute(form.name, form.code) in registry
    ensures c.path == DerivePath(form.name, form.code) && c.route == DeriveRoute(form.name, form.code)
    ensures c.tags == ParseTags(form.tags)
    ensures c.id == id && c.name == form.name && c.code == form.code && c.date == form.date
    ensures c.headImg == form.headImg && c.badgeImg == form.badgeImg && c.examDate == form.examDate
  {
    var route := DeriveRoute(form.name, form.code);
    Cert(id, DerivePath(form.name, form.code), route, form.name, form.code, form.date,
         form.headImg, form.badgeImg, form.examDate, ParseTags(form.tags), route in registry)
  }

  /** Two certs that may not both be stored: they share a value of one of
      the unique columns path, route, name or code. */
  predicate Clashes(a: Cert, b: Cert)
  {
    a.path == b.path || a.route == b.route || a.name == b.name || a.code == b.code
  }

  /** Storing `c` next to `certs` would violate a unique column. */
  predicate CertConflict(certs: seq<Cert>, c: Cert)
  {
    exists i :: 0 <= i < |certs| && Clashes(certs[i], c)
  }

  function NameOrCode(name: string, code: string): Cert -> bool
  {
    (c: Cert) => c.name == name || c.code == code
  }

  /** `i` is the first cert whose name or code equals the given ones. */
  ghost predicate FirstNameOrCodeHit(certs: seq<Cert>, name: string, code: string, i: int)
  {
    0 <= i < |certs| && (certs[i].name == name || certs[i].code == code)
    && forall j :: 0 <= j < i ==> certs[j].name != name && certs[j].code != code
  }

  /** What `Cert.exists` reports: the certs are scanned in store order and
      each is checked for its name before its code; the first hit decides. */
  function CertCollision(certs: seq<Cert>, name: string, code: string): (r: Option<UniqueField>)
    ensures r.None? <==> forall i :: 0 <= i < |certs| ==> certs[i].name != name && certs[i].code != code
    ensures r.Some? ==> r.value == Name || r.value == Code
    ensures forall i :: FirstNameOrCodeHit(certs, name, code, i) ==>
              r == Some(if certs[i].name == name then Name else Code)
  {
    match FirstIndex(certs, NameOrCode(name, code))
    case None => None
    case Some(i) => Some(if certs[i].name == name then Name else Code)
  }

  /** A pre-check that finds nothing still lets a cert through whose path
      and route are taken: names and codes are compared as typed, the
      derived columns only after formatting. */
  lemma PrecheckMissesSlug(certs: seq<Cert>, id: nat, form: CertForm, registry: set<string>)
    requires CertCollision(certs, form.name, form.code).None?
    requires CertConflict(certs, CertFromForm(id, form, registry))
    ensures exists i :: 0 <= i < |certs| && (certs[i].path == DerivePath(form.name, form.code)
                                             || certs[i].route == DeriveRoute(form.name, form.code))
  {
  }

  /** Once a cert is stored, asking again with its name (or its code) is
      refused. The answer is the one the earlier certs already give, or,
      when none of them has the name or the code, the name when the name
      repeats and the code otherwise. */
  lemma SecondCreateRejected(certs: seq<Cert>, c: Cert, name: string, code: string)
    requires name == c.name || code == c.code
    ensures CertCollision(certs + [c], name, code)
            == if CertCollision(certs, name, code).Some? then CertCollision(certs, name, code)
               else Some(if c.name == name then Name else Code)
  {
    var hit := FirstIndex(certs, NameOrCode(name, code));
    if hit.None? {
      assert FirstNameOrCodeHit(certs + [c], name, code, |certs|);
    } else {
      assert FirstNameOrCodeHit(certs, name, code, hit.value);
      assert FirstNameOrCodeHit(certs + [c], name, code, hit.value);
    }
  }

  // ---------------------------------------------------------------------
  // Queries over certs

  function StatusIs(published: bool): Cert -> bool
  {
    (c: Cert) => c.published == published
  }

  /** `find_published` (true) and `find_unpublished` (false): the certs with
      that flag, in store order. */
  function WithStatus(certs: seq<Cert>, published: bool): (r: seq<Cert>)
    ensures forall c :: c in r <==> c in certs && c.published == published
    ensures IsSubseq(r, certs)
  {
    FilterMembers(certs, StatusIs(published));
    FilterSubseq(certs, StatusIs(published));
    Filter(certs, StatusIs(published))
  }

  /** The published and the unpublished certs together are all the certs,
      each as often as it is stored. */
  lemma PublishedUnpublishedPartition(certs: seq<Cert>)
    ensures multiset(WithStatus(certs, true)) + multiset(WithStatus(certs, false)) == multiset(certs)
    ensures |WithStatus(certs, true)| + |WithStatus(certs, false)| == |certs|
  {
    FilterPartition(certs, StatusIs(true), StatusIs(false));
  }

  /** `query in s` for one tag name. */
  predicate TagMatches(tags: seq<Tag>, q: string)
  {
    exists k :: 0 <= k < |tags| && Contains(tags[k].name, q)
  }

  /** A cert `find` returns: published, and the query is a substring of its
      path, name, code or one of its tag names. */
  predicate Matches(c: Cert, q: string)
  {
    c.published
    && (Contains(c.path, q) || Contains(c.name, q) || Contains(c.code, q) || TagMatches(c.tags, q))
  }

  function Matching(q: string): Cert -> bool
  {
    (c: Cert) => Matches(c, q)
  }

  /** `find(q)`: the matching certs, in store order. */
  function Search(certs: seq<Cert>, q: string): (r: seq<Cert>)
    ensures forall c :: c in r <==> c in certs && Matches(c, q)
    ensures forall c :: c in r ==> c.published
    ensures IsSubseq(r, certs)
  {
    FilterMembers(certs, Matching(q));
    FilterSubseq(certs, Matching(q));
    Filter(certs, Matching(q))
  }

  /** Search only ever looks at published certs: it is the same search run
      over the published list. */
  lemma SearchWithinPublished(certs: seq<Cert>, q: string)
    ensures Search(certs, q) == Filter(WithStatus(certs, true), Matching(q))
    ensures IsSubseq(Search(certs, q), WithStatus(certs, true))
  {
    FilterNarrows(certs, Matching(q), StatusIs(true));
    FilterSubseq(WithStatus(certs, true), Matching(q));
  }

  function PathIs(path: string): Cert -> bool
  {
    (c: Cert) => c.path == path
  }

  function RouteIs(route: string): Cert -> bool
  {
    (c: Cert) => c.route == route
  }

  /** `find_by_path`: the first cert with that path. */
  function FindByPath(certs: seq<Cert>, path: string): (r: Option<Cert>)
    ensures r.None? <==> forall i :: 0 <= i < |certs| ==> certs[i].path != path
    ensures r.Some? ==> r.value in certs && r.value.path == path
    ensures forall i :: 0 <= i < |certs| && certs[i].path == path && (forall j :: 0 <= j < i ==> certs[j].path != path)
              ==> r == Some(certs[i])
  {
    match FirstIndex(certs, PathIs(path))
    case None => None
    case Some(i) => Some(certs[i])
  }

  /** The position of the first cert with that route. */
  function RouteIndex(certs: seq<Cert>, route: string): (r: Option<nat>)
    ensures r.None? <==> forall i :: 0 <= i < |certs| ==> certs[i].route != route
    ensures r.Some? ==> r.value < |certs| && certs[r.value].route == route
    ensures r.Some? ==> forall j :: 0 <= j < r.value ==> certs[j].route != route
  {
    FirstIndex(certs, RouteIs(route))
  }

  /** `find_by_route`: the first cert with that route. */
  function FindByRoute(certs: seq<Cert>, route: string): (r: Option<Cert>)
    ensures r.None? <==> forall i :: 0 <= i < |certs| ==> certs[i].route != route
    ensures r.Some? ==> r.value in certs && r.value.route == route
    ensures forall i :: 0 <= i < |certs| && certs[i].route == route && (forall j :: 0 <= j < i ==> certs[j].route != route)
              ==> r == Some(certs[i])
  {
    match RouteIndex(certs, route)
    case None => None
    case Some(i) => Some(certs[i])
  }

  /** With routes unique, the lookup by a stored cert's route finds that
      very cert, and the lookup by its path finds it too. */
  lemma LookupsFindStored(certs: seq<Cert>, i: nat)
    requires CertsUnique(certs)
    requires i < |certs|
    ensures RouteIndex(certs, certs[i].route) == Some(i)
    ensures FindByRoute(certs, certs[i].route) == Some(certs[i])
    ensures FindByPath(certs, certs[i].path) == Some(certs[i])
  {
  }

  /** `certs` with the cert at `i` marked published and nothing else changed. */
  function SetPublished(certs: seq<Cert>, i: nat): (r: seq<Cert>)
    requires i < |certs|
    ensures |r| == |certs| && r[i].published
    ensures r[i].(published := certs[i].published) == certs[i]
    ensures forall j :: 0 <= j < |certs| && j != i ==> r[j] == certs[j]
  {
    certs[i := certs[i].(published := true)]
  }

  /** Publishing twice is publishing once, and publishing a cert that is
      already published leaves the certs as they are. */
  lemma PublishIdempotent(certs: seq<Cert>, i: nat)
    requires i < |certs|
    ensures SetPublished(SetPublished(certs, i), i) == SetPublished(certs, i)
    ensures certs[i].published ==> SetPublished(certs, i) == certs
  {
  }

  /** Publishing an unpublished cert moves it from the unpublished list to
      the published one and leaves every other cert where it was. */
  lemma PublishMovesCert(certs: seq<Cert>, i: nat)
    requires i < |certs|
    requires !certs[i].published
    ensures multiset(WithStatus(SetPublished(certs, i), false)) == multiset(WithStatus(certs, false)) - multiset{certs[i]}
    ensures multiset(WithStatus(SetPublished(certs, i), true)) == multiset(WithStatus(certs, true)) + multiset{certs[i].(published := true)}
  {
    FilterUpdate(certs, i, certs[i].(published := true), StatusIs(false));
    FilterUpdate(certs, i, certs[i].(published := true), StatusIs(true));
  }

  /** Every published cert has its route registered. */
  ghost predicate PublishedAreLive(certs: seq<Cert>, registry: set<string>)
  {
    forall i :: 0 <= i < |certs| && certs[i].published ==> certs[i].route in registry
  }

  /** Creating a cert and publishing one whose route is registered keep
      every published cert's route registered. */
  lemma LivenessPreserved(certs: seq<Cert>, registry: set<string>, id: nat, form: CertForm, i: nat)
    requires PublishedAreLive(certs, registry)
    ensures PublishedAreLive(certs + [CertFromForm(id, form, registry)], registry)
    ensures i < |certs| && certs[i].route in registry ==> PublishedAreLive(SetPublished(certs, i), registry)
  {
  }

  // ---------------------------------------------------------------------
  // Resources, courses and sections

  /** Two resource rows that may not both be stored (unique url and title). */
  predicate ResourceClashes(a: ResourceData, b: ResourceData)
  {
    a.url == b.url || a.title == b.title
  }

  /** Storing a row with `data` next to `resources` would violate the
      unique url or title column. */
  predicate ResourceConflict(resources: seq<Resource>, data: ResourceData)
  {
    exists i :: 0 <= i < |resources| && ResourceClashes(resources[i].data, data)
  }

  function UrlOrTitle(url: string, title: string): Course -> bool
  {
    (c: Course) => c.resource.url == url || c.resource.title == title
  }

  /** `i` is the first course whose wrapped url or title equals the given ones. */
  ghost predicate FirstUrlOrTitleHit(courses: seq<Course>, url: string, title: string, i: int)
  {
    0 <= i < |courses| && (courses[i].resource.url == url || courses[i].resource.title == title)
    && forall j :: 0 <= j < i ==> courses[j].resource.url != url && courses[j].resource.title != title
  }

  /** What `Course.exists` reports: courses in store order, the url before
      the title of each; the first hit decides. */
  function CourseCollision(courses: seq<Course>, url: string, title: string): (r: Option<UniqueField>)
    ensures r.None? <==> forall i :: 0 <= i < |courses| ==> courses[i].resource.url != url && courses[i].resource.title != title
    ensures r.Some? ==> r.value == Url || r.value == Title
    ensures forall i :: FirstUrlOrTitleHit(courses, url, title, i) ==>
              r == Some(if courses[i].resource.url == url then Url else Title)
  {
    match FirstIndex(courses, UrlOrTitle(url, title))
    case None => None
    case Some(i) => Some(if courses[i].resource.url == url then Url else Title)
  }

  /** Two section rows that may not both be stored (unique number and title). */
  predicate SectionClashes(a: Section, data: SectionData)
  {
    a.number == data.number || a.title == data.title
  }

  /** Storing a section with `data` next to `sections` would violate the
      unique number or title column. */
  predicate SectionConflict(sections: seq<Section>, data: SectionData)
  {
    exists i :: 0 <= i < |sections| && SectionClashes(sections[i], data)
  }

  /** `Section(**data)`: the posted fields and timestamp, with both
      progress flags NULL. */
  function NewSection(id: nat, data: SectionData, timestamp: string): Section
  {
    Section(id, data.courseId, data.number, data.title, None, None, timestamp)
  }

  /** What `fetch_resources` returns: a cert's courses, or its rows of the
      resources table of one type. */
  datatype Fetched = Courses(courses: seq<Course>) | Resources(resources: seq<Resource>)

  function OfCert(certId: nat): Course -> bool
  {
    (c: Course) => c.certId == certId
  }

  function OfCertAndType(certId: nat, t: string): Resource -> bool
  {
    (x: Resource) => x.data.certId == certId && x.data.resourceType == t
  }

  /** No row of the resources table has the type "course". */
  ghost predicate NoCourseRows(resources: seq<Resource>)
  {
    forall i :: 0 <= i < |resources| ==> resources[i].data.resourceType != "course"
  }

  // ---------------------------------------------------------------------
  // Store invariant

  /** No two certs share a path, route, name or code. */
  ghost predicate CertsUnique(certs: seq<Cert>)
  {
    forall i, j :: 0 <= i < j < |certs| ==> !Clashes(certs[i], certs[j])
  }

  /** No two rows of the resources table share a url or a title. */
  ghost predicate ResourcesUnique(resources: seq<Resource>)
  {
    forall i, j :: 0 <= i < j < |resources| ==> !ResourceClashes(resources[i].data, resources[j].data)
  }

  /** No two sections share a number or a title. */
  ghost predicate SectionsUnique(sections: seq<Section>)
  {
    forall i, j :: 0 <= i < j < |sections| ==>
      sections[i].number != sections[j].number && sections[i].title != sections[j].title
  }

  /** The tables as the store keeps them: row ids are positions plus one
      (rows are never deleted, and a rolled-back insert takes no id), the
      unique columns hold, and every row points at a stored parent. */
  ghost predicate Consistent(certs: seq<Cert>, resources: seq<Resource>, courses: seq<Course>, sections: seq<Section>)
  {
    (forall i :: 0 <= i < |certs| ==> certs[i].id == i + 1)
    && (forall i :: 0 <= i < |resources| ==> resources[i].id == i + 1)
    && (forall i :: 0 <= i < |courses| ==> courses[i].id == i + 1)
    && (forall i :: 0 <= i < |sections| ==> sections[i].id == i + 1)
    && CertsUnique(certs) && ResourcesUnique(resources) && SectionsUnique(sections)
    && (forall i :: 0 <= i < |resources| ==> 1 <= resources[i].data.certId <= |certs|)
    && (forall i :: 0 <= i < |courses| ==> 1 <= courses[i].certId <= |certs|)
    && (forall i :: 0 <= i < |sections| ==> 1 <= sections[i].courseId <= |courses|)
  }

  /** Stored certs are pairwise different, so no query lists one twice. */
  lemma CertsDistinct(certs: seq<Cert>, q: string)
    requires CertsUnique(certs)
    ensures Distinct(certs)
    ensures Distinct(Search(certs, q))
    ensures Distinct(WithStatus(certs, true)) && Distinct(WithStatus(certs, false))
  {
    forall i, j | 0 <= i < j < |certs|
      ensures certs[i] != certs[j]
    {
      assert !Clashes(certs[i], certs[j]);
    }
    FilterDistinct(certs, Matching(q));
    FilterDistinct(certs, StatusIs(true));
    FilterDistinct(certs, StatusIs(false));
  }

  /** `for rule in url_map.iter_rules(): if rule.endpoint == endpoint`: the
      scan over the registered endpoints finds a match exactly when the
      endpoint is registered. */
  method HasEndpoint(registry: set<string>, endpoint: string) returns (found: bool)
    ensures found <==> endpoint in registry
  {
    found := false;
    var rules := registry;
    while rules != {}
      invariant rules <= registry
      invariant found <==> endpoint in registry - rules
      decreases |rules|
    {
      var rule :| rule in rules;
      if rule == endpoint {
        found := true;
      }
      rules := rules - {rule};
    }
  }

  /** `for tag in text.split(","): cert.tags.append(Tag(name=tag.strip()))`. */
  method CollectTags(text: string) returns (tags: seq<Tag>)
    ensures tags == ParseTags(text)
  {
    var pieces := Split(text, ',');
    tags := [];
    for k := 0 to |pieces|
      invariant |tags| == k
      invariant forall j :: 0 <= j < k ==> tags[j] == Tag(Strip(pieces[j]))
    {
      tags := tags + [Tag(Strip(pieces[k]))];
    }
  }

  /** Appending a cert that clashes with none keeps the tables consistent. */
  lemma AddCertConsistent(certs: seq<Cert>, resources: seq<Resource>, courses: seq<Course>,
                          sections: seq<Section>, c: Cert)
    requires Consistent(certs, resources, courses, sections)
    requires c.id == |certs| + 1
    requires !CertConflict(certs, c)
    ensures Consistent(certs + [c], resources, courses, sections)
  {
  }

  // ---------------------------------------------------------------------
  // The store

  class Store {
    var certs: seq<Cert>
    var resources: seq<Resource>
    var courses: seq<Course>
    var sections: seq<Section>

    ghost predicate Valid()
      reads this
    {
      Consistent(certs, resources, courses, sections)
    }

    constructor ()
      ensures Valid()
      ensures certs == [] && resources == [] && courses == [] && sections == []
    {
      certs, resources, courses, sections := [], [], [], [];
    }

    /** `Cert.exists`. */
    method CertExists(name: string, code: string) returns (r: Option<UniqueField>)
      ensures r == CertCollision(certs, name, code)
    {
      for i := 0 to |certs|
        invariant forall j :: 0 <= j < i ==> certs[j].name != name && certs[j].code != code
      {
        if certs[i].name == name {
          assert FirstNameOrCodeHit(certs, name, code, i);
          return Some(Name);
        }
        if certs[i].code == code {
          assert FirstNameOrCodeHit(certs, name, code, i);
          return Some(Code);
        }
      }
      return None;
    }

    /** `Cert.create_new`: derive path and route, parse the tags, publish
      when the route is registered, then commit; a clash on any unique
      column makes the commit fail and nothing is stored. */
    method CreateCert(form: CertForm, registry: set<string>) returns (w: Write)
      requires Valid()
      modifies this
      ensures Valid()
      ensures resources == old(resources) && courses == old(courses) && sections == old(sections)
      ensures w != ParentMissing
      ensures var c := CertFromForm(|old(certs)| + 1, form, registry);
              if CertConflict(old(certs), c) then w == IntegrityError && certs == old(certs)
              else w == Written && certs == old(certs) + [c]
    {
      var path := DerivePath(form.name, form.code);
      var route := DeriveRoute(form.name, form.code);
      var tags := CollectTags(form.tags);
      var published := HasEndpoint(registry, route);
      var c := Cert(|certs| + 1, path, route, form.name, form.code, form.date,
                    form.headImg, form.badgeImg, form.examDate, tags, published);
      assert c == CertFromForm(|certs| + 1, form, registry);
      if CertConflict(certs, c) {
        w := IntegrityError;
      } else {
        AddCertConsistent(certs, resources, courses, sections, c);
        certs := certs + [c];
        w := Written;
      }
    }

    /** `Cert.find_published`. */
    method FindPublished() returns (results: seq<Cert>)
      ensures results == WithStatus(certs, true)
    {
      results := [];
      for i := 0 to |certs|
        invariant results == WithStatus(certs[..i], true)
      {
        FilterSnoc(certs, i, StatusIs(true));
        if certs[i].published {
          results := results + [certs[i]];
        }
      }
      assert certs[..|certs|] == certs;
    }

    /** `Cert.find_unpublished`. */
    method FindUnpublished() returns (results: seq<Cert>)
      ensures results == WithStatus(certs, false)
    {
      results := [];
      for i := 0 to |certs|
        invariant results == WithStatus(certs[..i], false)
      {
        FilterSnoc(certs, i, StatusIs(false));
        if !certs[i].published {
          results := results + [certs[i]];
        }
      }
      assert certs[..|certs|] == certs;
    }

    /** `Cert.find`: the empty query is refused before the search runs. */
    method Find(q: string) returns (results: seq<Cert>)
      requires q != ""
      ensures results == Search(certs, q)
    {
      results := [];
      for i := 0 to |certs|
        invariant results == Search(certs[..i], q)
      {
        var cert := certs[i];
        FilterSnoc(certs, i, Matching(q));
        if cert.published {
          if Contains(cert.path, q) {
            results := results + [cert];
            continue;
          }
          if Contains(cert.name, q) {
            results := results + [cert];
            continue;
          }
          if Contains(cert.code, q) {
            results := results + [cert];
            continue;
          }
          for k := 0 to |cert.tags|
            invariant results == Search(certs[..i], q)
            invariant forall j :: 0 <= j < k ==> !Contains(cert.tags[j].name, q)
          {
            if Contains(cert.tags[k].name, q) {
              results := results + [cert];
              break;
            }
          }
        }
      }
      assert certs[..|certs|] == certs;
    }

    /** `Cert.fetch_resources` on the cert with id `certId`: its courses for
      the type "course", otherwise its rows of the resources table with
      exactly that type, in store order. */
    function FetchResources(certId: nat, t: string): (r: Fetched)
      reads this
      ensures r.Courses? <==> t == "course"
      ensures r.Courses? ==> forall c :: c in r.courses <==> c in courses && c.certId == certId
      ensures r.Courses? ==> IsSubseq(r.courses, courses)
      ensures r.Resources? ==> forall x :: x in r.resources <==>
                x in resources && x.data.certId == certId && x.data.resourceType == t
      ensures r.Resources? ==> IsSubseq(r.resources, resources)
    {
      FilterMembers(courses, OfCert(certId));
      FilterSubseq(courses, OfCert(certId));
      FilterMembers(resources, OfCertAndType(certId, t));
      FilterSubseq(resources, OfCertAndType(certId, t));
      if t == "course" then Courses(Filter(courses, OfCert(certId)))
      else Resources(Filter(resources, OfCertAndType(certId, t)))
    }

    /** `Resource.create_new`: attach a new row to the cert with the given
      id and commit; a missing cert stops it before anything is written,
      and a url or title already in the resources table makes the commit
      fail. */
    method CreateResource(data: ResourceData, timestamp: string) returns (w: Write)
      requires Valid()
      modifies this
      ensures Valid()
      ensures certs == old(certs) && courses == old(courses) && sections == old(sections)
      ensures if !(1 <= data.certId <= |old(certs)|) then w == ParentMissing && resources == old(resources)
              else if ResourceConflict(old(resources), data) then w == IntegrityError && resources == old(resources)
              else w == Written && resources == old(resources) + [Resource(|old(resources)| + 1, data, timestamp)]
    {
      if !(1 <= data.certId <= |certs|) {
        return ParentMissing;
      }
      if ResourceConflict(resources, data) {
        return IntegrityError;
      }
      resources := resources + [Resource(|resources| + 1, data, timestamp)];
      w := Written;
    }

    /** `Course.exists`. */
    method CourseExists(url: string, title: string) returns (r: Option<UniqueField>)
      ensures r == CourseCollision(courses, url, title)
    {
      for i := 0 to |courses|
        invariant forall j :: 0 <= j < i ==> courses[j].resource.url != url && courses[j].resource.title != title
      {
        if courses[i].resource.url == url {
          assert FirstUrlOrTitleHit(courses, url, title, i);
          return Some(Url);
        }
        if courses[i].resource.title == title {
          assert FirstUrlOrTitleHit(courses, url, title, i);
          return Some(Title);
        }
      }
      return None;
    }

    /** `Course.create_new`: the resource is wrapped whole in a new course
      on the cert's course list; no row of the resources table is written
      and no column of the courses table is unique. */
    method CreateCourse(data: ResourceData) returns (w: Write)
      requires Valid()
      modifies this
      ensures Valid()
      ensures certs == old(certs) && resources == old(resources) && sections == old(sections)
      ensures w != IntegrityError
      ensures if !(1 <= data.certId <= |old(certs)|) then w == ParentMissing && courses == old(courses)
              else w == Written && courses == old(courses) + [Course(|old(courses)| + 1, data.certId, data, None)]
    {
      if !(1 <= data.certId <= |certs|) {
        return ParentMissing;
      }
      courses := courses + [Course(|courses| + 1, data.certId, data, None)];
      w := Written;
    }

    /** `Section.create_new`: attach a new section, flags unset, to the
      course with the given id and commit; a number or title already in
      use makes the commit fail. */
    method CreateSection(data: SectionData, timestamp: string) returns (w: Write)
      requires Valid()
      modifies this
      ensures Valid()
      ensures certs == old(certs) && resources == old(resources) && courses == old(courses)
      ensures if !(1 <= data.courseId <= |old(courses)|) then w == ParentMissing && sections == old(sections)
              else if SectionConflict(old(sections), data) then w == IntegrityError && sections == old(sections)
              else w == Written && sections == old(sections) + [NewSection(|old(sections)| + 1, data, timestamp)]
    {
      if !(1 <= data.courseId <= |courses|) {
        return ParentMissing;
      }
      if SectionConflict(sections, data) {
        return IntegrityError;
      }
      sections := sections + [NewSection(|sections| + 1, data, timestamp)];
      w := Written;
    }

    /** `Section.update` on the section at position `i`: overwrite its two
      flags and nothing else. */
    method UpdateSection(i: nat, cardsMade: bool, complete: bool)
      requires Valid()
      requires i < |sections|
      modifies this
      ensures Valid()
      ensures certs == old(certs) && resources == old(resources) && courses == old(courses)
      ensures |sections| == |old(sections)|
      ensures sections[i] == old(sections[i]).(cardsMade := Some(cardsMade), complete := Some(complete))
      ensures forall j :: 0 <= j < |sections| && j != i ==> sections[j] == old(sections[j])
    {
      sections := sections[i := sections[i].(cardsMade := Some(cardsMade), complete := Some(complete))];
    }

    /** `cert.published = True` followed by a commit, on the cert at `i`. */
    method Publish(i: nat)
      requires Valid()
      requires i < |certs|
      modifies this
      ensures Valid()
      ensures certs == SetPublished(old(certs), i)
      ensures resources == old(resources) && courses == old(courses) && sections == old(sections)
    {
      certs := certs[i := certs[i].(published := true)];
    }
  }
}
