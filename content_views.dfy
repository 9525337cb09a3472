/** The content blueprint: the form handlers that create certs, resources,
    courses and sections and update a section's progress flags. Each
    handler runs the store operations of `Models` and turns their outcome
    into a reply; the flashed message travels with a redirect. */
module ContentViews {
  import opened Seqs
  import opened Models

  /** A flashed message with its category. */
  datatype Flash = Success(message: string) | Error(message: string)

  /** A redirect to a registered endpoint with the message flashed on the
      way, an empty 204 reply, or an unhandled exception (HTTP 500). */
  datatype Reply = Redirect(endpoint: string, flash: Option<Flash>) | NoContent | ServerError

  /** The posted fields of the add-resource form; `hasOgData` is the
      optional `has_og_data` field and `origin` the endpoint to return to. */
  datatype ResourceForm = ResourceForm(
    certId: nat,
    resourceType: string,
    url: string,
    title: string,
    image: string,
    description: string,
    siteLogo: string,
    siteName: string,
    hasOgData: Option<string>,
    origin: string)

  /** The posted fields of the add-section form. */
  datatype SectionForm = SectionForm(courseId: nat, number: int, title: string, certId: nat)

  /** The posted fields of the section update. */
  datatype UpdateForm = UpdateForm(sectionId: nat, cardsMade: bool, complete: bool)

  /** The error a failed uniqueness pre-check flashes. */
  function UniqueMessage(f: UniqueField): string
  {
    f.Label() + " must be unique"
  }

  /** `str(n)` for an integer. */
  function Decimal(n: int): string
    decreases if n < 0 then 1 - n else n
  {
    if n < 0 then "-" + Decimal(-n)
    else if n < 10 then ["0123456789"[n]]
    else Decimal(n / 10) + ["0123456789"[n % 10]]
  }

  /** The `data` dictionary `create_resource` builds: the form's fields,
      with `has_og_data` present (True) when that field was posted and is
      not empty. */
  function FormData(form: ResourceForm): ResourceData
  {
    ResourceData(form.certId, form.resourceType, form.url, form.title, form.image,
                 form.description, form.siteLogo, form.siteName,
                 form.hasOgData.Some? && form.hasOgData.value != "")
  }

  /** Building the dictionary field by field and then adding the flag
      gives `FormData`: the flag is set exactly when the field was posted
      non-empty. */
  method CollectResourceData(form: ResourceForm) returns (data: ResourceData)
    ensures data == FormData(form)
    ensures data.hasOgData <==> form.hasOgData.Some? && form.hasOgData.value != ""
  {
    data := ResourceData(form.certId, form.resourceType, form.url, form.title, form.image,
                         form.description, form.siteLogo, form.siteName, false);
    if form.hasOgData.Some? && form.hasOgData.value != "" {
      data := data.(hasOgData := true);
    }
  }

  /** `create` on a valid form: a name or code already stored is reported
      before anything is written; otherwise the cert is created, and a
      clash the pre-check does not look for (path or route) ends in an
      unhandled error with nothing stored. */
  method Create(store: Store, form: CertForm, registry: set<string>) returns (reply: Reply)
    requires store.Valid()
    modifies store
    ensures store.Valid()
    ensures store.resources == old(store.resources) && store.courses == old(store.courses)
    ensures store.sections == old(store.sections)
    ensures match CertCollision(old(store.certs), form.name, form.code)
            case Some(f) =>
              reply == Redirect("certs.certs", Some(Error(UniqueMessage(f)))) && store.certs == old(store.certs)
            case None =>
              var c := CertFromForm(|old(store.certs)| + 1, form, registry);
              if CertConflict(old(store.certs), c) then reply == ServerError && store.certs == old(store.certs)
              else reply == Redirect("certs.certs", None) && store.certs == old(store.certs) + [c]
  {
    var failed := store.CertExists(form.name, form.code);
    if failed.Some? {
      return Redirect("certs.certs", Some(Error(UniqueMessage(failed.value))));
    }
    var w := store.CreateCert(form, registry);
    if w == IntegrityError {
      return ServerError;
    }
    reply := Redirect("certs.certs", None);
  }

  /** `create_resource` on a valid form. A course is checked against the
      stored courses and then added to the courses only; any other type
      goes to the resources table only, where a taken url or title rolls
      the write back. A missing cert fails before anything is written; an
      origin that is not a registered endpoint fails after the write. */
  method CreateResource(store: Store, form: ResourceForm, registry: set<string>, timestamp: string)
    returns (reply: Reply)
    requires store.Valid()
    modifies store
    ensures store.Valid()
    ensures store.certs == old(store.certs) && store.sections == old(store.sections)
    ensures NoCourseRows(old(store.resources)) ==> NoCourseRows(store.resources)
    ensures form.resourceType == "course" ==> store.resources == old(store.resources)
    ensures form.resourceType != "course" ==> store.courses == old(store.courses)
    ensures var data := FormData(form);
            var parent := 1 <= form.certId <= |old(store.certs)|;
            var back := form.origin in registry;
            if form.resourceType == "course" then
              match CourseCollision(old(store.courses), form.url, form.title)
              case Some(f) =>
                store.courses == old(store.courses)
                && reply == (if back then Redirect(form.origin, Some(Error(UniqueMessage(f)))) else ServerError)
              case None =>
                if !parent then store.courses == old(store.courses) && reply == ServerError
                else (store.courses == old(store.courses) + [Course(|old(store.courses)| + 1, form.certId, data, None)]
                      && reply == (if back then Redirect(form.origin, Some(Success("Course " + form.title + " created successfully")))
                                   else ServerError))
            else if !parent then store.resources == old(store.resources) && reply == ServerError
            else if ResourceConflict(old(store.resources), data) then
              store.resources == old(store.resources)
              && reply == (if back then Redirect(form.origin, Some(Error("Create resource failed"))) else ServerError)
            else
              store.resources == old(store.resources) + [Resource(|old(store.resources)| + 1, data, timestamp)]
              && reply == (if back then Redirect(form.origin, Some(Success(
                                          "Resource " + form.title + "                       created successfully")))
                           else ServerError)
  {
    var data := CollectResourceData(form);
    var flash: Flash;
    if form.resourceType == "course" {
      var failed := store.CourseExists(form.url, form.title);
      if failed.Some? {
        flash := Error(UniqueMessage(failed.value));
      } else {
        var w := store.CreateCourse(data);
        if w == ParentMissing {
          return ServerError;
        }
        flash := Success("Course " + form.title + " created successfully");
      }
    } else {
      var w := store.CreateResource(data, timestamp);
      if w == ParentMissing {
        return ServerError;
      } else if w == IntegrityError {
        flash := Error("Create resource failed");
      } else {
        flash := Success("Resource " + form.title + "                       created successfully");
      }
    }
    var back := HasEndpoint(registry, form.origin);
    if !back {
      return ServerError;
    }
    reply := Redirect(form.origin, Some(flash));
  }

  /** `create_section` on a valid form. A number or title already in use
      rolls the write back; a missing course fails before anything is
      written. The reply then goes back to the page of the cert named in
      the form, which fails, after the write, when that cert is missing or
      its route is not a registered endpoint. */
  method CreateSection(store: Store, form: SectionForm, registry: set<string>, timestamp: string)
    returns (reply: Reply)
    requires store.Valid()
    modifies store
    ensures store.Valid()
    ensures store.certs == old(store.certs) && store.resources == old(store.resources)
    ensures store.courses == old(store.courses)
    ensures var data := SectionData(form.courseId, form.number, form.title);
            var certs := old(store.certs);
            var back := 1 <= form.certId <= |certs| && certs[form.certId - 1].route in registry;
            if !(1 <= form.courseId <= |old(store.courses)|) then
              store.sections == old(store.sections) && reply == ServerError
            else if SectionConflict(old(store.sections), data) then
              store.sections == old(store.sections)
              && reply == (if back then Redirect(certs[form.certId - 1].route, Some(Error("Section data must be unique")))
                           else ServerError)
            else
              store.sections == old(store.sections) + [NewSection(|old(store.sections)| + 1, data, timestamp)]
              && reply == (if back then Redirect(certs[form.certId - 1].route,
                                                 Some(Success("Section " + Decimal(form.number) + " added successfully")))
                           else ServerError)
  {
    var w := store.CreateSection(SectionData(form.courseId, form.number, form.title), timestamp);
    var flash: Flash;
    if w == ParentMissing {
      return ServerError;
    } else if w == IntegrityError {
      flash := Error("Section data must be unique");
    } else {
      flash := Success("Section " + Decimal(form.number) + " added successfully");
    }
    if !(1 <= form.certId <= |store.certs|) {
      return ServerError;
    }
    var route := store.certs[form.certId - 1].route;
    var back := HasEndpoint(registry, route);
    if !back {
      return ServerError;
    }
    reply := Redirect(route, Some(flash));
  }

  /** `update_section` on a valid form: the section with the posted id gets
      exactly the posted flags and nothing else changes; a missing section
      fails with nothing written. */
  method UpdateSection(store: Store, form: UpdateForm) returns (reply: Reply)
    requires store.Valid()
    modifies store
    ensures store.Valid()
    ensures store.certs == old(store.certs) && store.resources == old(store.resources)
    ensures store.courses == old(store.courses)
    ensures |store.sections| == |old(store.sections)|
    ensures if 1 <= form.sectionId <= |old(store.sections)| then
              reply == NoContent
              && store.sections[form.sectionId - 1]
                 == old(store.sections[form.sectionId - 1]).(cardsMade := Some(form.cardsMade), complete := Some(form.complete))
              && forall j :: 0 <= j < |store.sections| && j != form.sectionId - 1 ==> store.sections[j] == old(store.sections[j])
            else reply == ServerError && store.sections == old(store.sections)
  {
    if !(1 <= form.sectionId <= |store.sections|) {
      return ServerError;
    }
    store.UpdateSection(form.sectionId - 1, form.cardsMade, form.complete);
    reply := NoContent;
  }
}
