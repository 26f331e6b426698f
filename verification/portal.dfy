/**
 * Publication on the open-data portal: the titles given to each area's resource, the scan of
 * the dataset's resource list (data_gouv_resource_id) and the create-or-update dispatch of
 * publish_on_data_gouv. HTTP is left out: the answer to the dataset fetch and the status the
 * portal returns for a create or an update are inputs.
 */
module Portal {
  import opened Wrappers
  import opened Areas

  const ArchiveFormat := "zip"
  const NationalTitle := "Export National"
  const DepartmentTitlePrefix := "Export Départemental "

  /** A resource of the dataset, as listed by the portal. */
  datatype Resource = Resource(id: string, title: string, format: string,
                               url: string, filesize: nat, checksum: string)

  /** The answer to the dataset fetch: its HTTP status and the resources it lists. */
  datatype DatasetResponse = DatasetResponse(status: int, resources: seq<Resource>)

  datatype Checksum = Checksum(kind: string, value: string)

  /** The JSON body sent on a create and on an update. */
  datatype Payload = Payload(title: string, description: string, kind: string, url: string,
                             filetype: string, format: string, filesize: nat, checksum: Checksum)

  /** The one write call a publication makes, with the clock reading it carries. */
  datatype Request =
    | CreateResource(payload: Payload, createdAt: string)
    | UpdateResource(id: string, payload: Payload, lastModifiedAt: string)

  datatype PortalError = FetchFailed | CreateFailed | UpdateFailed

  const NationalDescription := "Export du RNB au format csv pour l’ensemble du territoire français."
  const DepartmentDescriptionPrefix := "Export du RNB au format csv pour le département "

  /**
   * The title publish_on_data_gouv gives the area's resource: the national title for "nat",
   * otherwise the departmental prefix followed by exactly the area.
   */
  function Title(area: string): (t: string)
    ensures t == NationalTitle <==> area == NationalArea
    ensures area != NationalArea ==>
      |t| == |DepartmentTitlePrefix| + |area| &&
      t[..|DepartmentTitlePrefix|] == DepartmentTitlePrefix && t[|DepartmentTitlePrefix|..] == area
  {
    if area == NationalArea then NationalTitle
    else
      assert |DepartmentTitlePrefix + area| > |NationalTitle|;
      DepartmentTitlePrefix + area
  }

  /** The description: the national sentence for "nat", otherwise a sentence naming the department. */
  function Description(area: string): (d: string)
    ensures d == NationalDescription <==> area == NationalArea
    ensures area != NationalArea ==>
      |d| == |DepartmentDescriptionPrefix| + |area| + 1 &&
      d[..|DepartmentDescriptionPrefix|] == DepartmentDescriptionPrefix &&
      d[|DepartmentDescriptionPrefix|..|d| - 1] == area &&
      d[|d| - 1] == '.'
  {
    if area == NationalArea then NationalDescription
    else
      var d := DepartmentDescriptionPrefix + area + ".";
      assert d[..|DepartmentDescriptionPrefix|] == DepartmentDescriptionPrefix;
      assert d[|DepartmentDescriptionPrefix|..|d| - 1] == area;
      assert d[34] != NationalDescription[34];
      d
  }

  /** No two areas share a title, so no area's publication can update another area's resource. */
  lemma {:induction false} TitlesDistinct(a1: string, a2: string)
    requires a1 != a2
    ensures Title(a1) != Title(a2)
  {
    if a1 != NationalArea && a2 != NationalArea {
      var p := |DepartmentTitlePrefix|;
      if |a1| == |a2| {
        var k :| 0 <= k < |a1| && a1[k] != a2[k];
        assert Title(a1)[p + k] == a1[k];
        assert Title(a2)[p + k] == a2[k];
      }
    } else if a1 != NationalArea {
      assert |Title(a1)| > |NationalTitle|;
    } else {
      assert |Title(a2)| > |NationalTitle|;
    }
  }

  /**
   * The test the resource scan applies to each resource, as written in the scan. It accepts
   * exactly the zip resources carrying the title the publication gives the area.
   */
  predicate Matches(r: Resource, area: string)
    ensures Matches(r, area) <==> r.format == ArchiveFormat && r.title == Title(area)
  {
    r.format == ArchiveFormat &&
    ((area == NationalArea && r.title == NationalTitle) ||
     (area != NationalArea && r.title == DepartmentTitlePrefix + area))
  }

  /** `i` is the position of the first resource matching the area. */
  predicate FirstMatchAt(rs: seq<Resource>, area: string, i: int)
  {
    0 <= i < |rs| && Matches(rs[i], area) && forall j :: 0 <= j < i ==> !Matches(rs[j], area)
  }

  /** The id of the first matching resource, if any: what the scan looks for. */
  function FindResource(rs: seq<Resource>, area: string): (found: Option<string>)
    ensures found.None? <==> forall i :: 0 <= i < |rs| ==> !Matches(rs[i], area)
    ensures found.Some? ==> exists i :: FirstMatchAt(rs, area, i) && rs[i].id == found.value
  {
    if rs == [] then None
    else if Matches(rs[0], area) then
      assert FirstMatchAt(rs, area, 0);
      Some(rs[0].id)
    else
      var rest := FindResource(rs[1..], area);
      if rest.Some? then
        var i :| FirstMatchAt(rs[1..], area, i) && rs[1..][i].id == rest.value;
        assert FirstMatchAt(rs, area, i + 1);
        rest
      else
        rest
  }

  /** At most one position is the first match. */
  lemma FirstMatchUnique(rs: seq<Resource>, area: string, i: int, k: int)
    requires FirstMatchAt(rs, area, i) && FirstMatchAt(rs, area, k)
    ensures i == k
  {
  }

  /**
   * data_gouv_resource_id: a fetch answered with anything but 200 raises; otherwise the scan
   * returns the id of the first matching resource, or nothing.
   */
  method ResourceId(dataset: DatasetResponse, area: string)
    returns (r: Result<Option<string>, PortalError>)
    ensures dataset.status != 200 ==> r == Err(FetchFailed)
    ensures dataset.status == 200 ==> r == Ok(FindResource(dataset.resources, area))
  {
    if dataset.status != 200 {
      return Err(FetchFailed);
    }
    var resources := dataset.resources;
    for i := 0 to |resources|
      invariant forall j :: 0 <= j < i ==> !Matches(resources[j], area)
    {
      if Matches(resources[i], area) {
        assert FirstMatchAt(resources, area, i);
        ghost var found := FindResource(resources, area);
        ghost var k :| FirstMatchAt(resources, area, k) && resources[k].id == found.value;
        FirstMatchUnique(resources, area, i, k);
        return Ok(Some(resources[i].id));
      }
    }
    return Ok(None);
  }

  /**
   * The body publish_on_data_gouv sends for an archive: a main, remote resource carrying the
   * archive's url, size and SHA-1 checksum, and the title and format that the scan for the
   * same area accepts.
   */
  function ResourcePayload(area: string, publicUrl: string, archiveSize: nat, archiveSha1: string): (p: Payload)
    ensures p.url == publicUrl && p.filesize == archiveSize && p.checksum == Checksum("sha1", archiveSha1)
    ensures p.kind == "main" && p.filetype == "remote" && p.description == Description(area)
    ensures forall id :: Matches(Resource(id, p.title, p.format, p.url, p.filesize, p.checksum.value), area)
  {
    Payload(Title(area), Description(area), "main", publicUrl, "remote", ArchiveFormat,
            archiveSize, Checksum("sha1", archiveSha1))
  }

  /** Create-or-update: an update of the resource found, a create when none was found. */
  function Dispatch(found: Option<string>, payload: Payload, now: string): (req: Request)
    ensures req.payload == payload
    ensures req.UpdateResource? <==> found.Some?
    ensures req.UpdateResource? ==> req.id == found.value
  {
    match found
    case Some(id) => UpdateResource(id, payload, now)
    case None => CreateResource(payload, now)
  }

  /** The status that counts as success: 201 (Created) for a create, 200 (OK) for an update. */
  function SuccessStatus(req: Request): (status: int)
    ensures status == 201 <==> req.CreateResource?
    ensures status == 200 <==> req.UpdateResource?
  {
    if req.CreateResource? then 201 else 200
  }

  /**
   * publish_on_data_gouv: looks the area's resource up, then makes exactly one write call,
   * an update of the resource found or a create, and raises when the portal answers that
   * call with anything but the success status.
   */
  method PublishOnDataGouv(area: string, publicUrl: string, archiveSize: nat, archiveSha1: string,
                           dataset: DatasetResponse, now: string, respond: Request -> int)
    returns (request: Option<Request>, r: Result<bool, PortalError>)
    ensures request.Some? <==> dataset.status == 200
    ensures dataset.status != 200 ==> r == Err(FetchFailed)
    ensures request.Some? ==>
      request.value == Dispatch(FindResource(dataset.resources, area),
                                ResourcePayload(area, publicUrl, archiveSize, archiveSha1), now)
    ensures request.Some? ==> (r == Ok(true) <==> respond(request.value) == SuccessStatus(request.value))
    ensures request.Some? && r.Err? ==>
      r.error == if request.value.CreateResource? then CreateFailed else UpdateFailed
    ensures r.Ok? ==> r.value
  {
    var found := ResourceId(dataset, area);
    if found.Err? {
      return None, Err(found.error);
    }
    var payload := ResourcePayload(area, publicUrl, archiveSize, archiveSha1);
    if found.value.Some? {
      var req := UpdateResource(found.value.value, payload, now);
      request := Some(req);
      r := if respond(req) != 200 then Err(UpdateFailed) else Ok(true);
    } else {
      var req := CreateResource(payload, now);
      request := Some(req);
      r := if respond(req) != 201 then Err(CreateFailed) else Ok(true);
    }
  }

  /**
   * How the portal applies a successful write call: a create appends a resource with a fresh
   * id, an update overwrites the metadata of the resource with that id.
   */
  function Apply(rs: seq<Resource>, req: Request, newId: string): seq<Resource>
  {
    var p := req.payload;
    match req
    case CreateResource(_, _) =>
      rs + [Resource(newId, p.title, p.format, p.url, p.filesize, p.checksum.value)]
    case UpdateResource(id, _, _) =>
      seq(|rs|, i requires 0 <= i < |rs| =>
        if rs[i].id == id then Resource(id, p.title, p.format, p.url, p.filesize, p.checksum.value)
        else rs[i])
  }

  /** The number of resources the scan accepts for the area. */
  function CountMatches(rs: seq<Resource>, area: string): nat
  {
    if rs == [] then 0 else (if Matches(rs[0], area) then 1 else 0) + CountMatches(rs[1..], area)
  }

  lemma {:induction false} CountMatchesAppend(rs: seq<Resource>, r: Resource, area: string)
    ensures CountMatches(rs + [r], area) == CountMatches(rs, area) + (if Matches(r, area) then 1 else 0)
  {
    if rs != [] {
      assert (rs + [r])[1..] == rs[1..] + [r];
      CountMatchesAppend(rs[1..], r, area);
    }
  }

  lemma {:induction false} NoMatchesCountZero(rs: seq<Resource>, area: string)
    requires forall i :: 0 <= i < |rs| ==> !Matches(rs[i], area)
    ensures CountMatches(rs, area) == 0
  {
    if rs != [] {
      NoMatchesCountZero(rs[1..], area);
    }
  }

  /** After a create, the appended resource is the first match: none matched before it. */
  lemma CreatedResourceFound(rs: seq<Resource>, area: string, payload: Payload, now: string, newId: string)
    requires payload.title == Title(area) && payload.format == ArchiveFormat
    requires FindResource(rs, area) == None
    ensures FindResource(Apply(rs, CreateResource(payload, now), newId), area) == Some(newId)
    ensures CountMatches(Apply(rs, CreateResource(payload, now), newId), area) == 1
  {
    var rs' := Apply(rs, CreateResource(payload, now), newId);
    var created := rs'[|rs|];
    assert rs' == rs + [created];
    assert FirstMatchAt(rs', area, |rs|);
    var k :| FirstMatchAt(rs', area, k) && rs'[k].id == FindResource(rs', area).value;
    FirstMatchUnique(rs', area, k, |rs|);
    NoMatchesCountZero(rs, area);
    CountMatchesAppend(rs, created, area);
  }

  /** After an update of the first match, that resource is still the first match. */
  lemma UpdatedResourceFound(rs: seq<Resource>, area: string, payload: Payload, now: string,
                             id: string, newId: string)
    requires payload.title == Title(area) && payload.format == ArchiveFormat
    requires FindResource(rs, area) == Some(id)
    ensures FindResource(Apply(rs, UpdateResource(id, payload, now), newId), area) == Some(id)
  {
    var rs' := Apply(rs, UpdateResource(id, payload, now), newId);
    var i :| FirstMatchAt(rs, area, i) && rs[i].id == id;
    assert Matches(rs'[i], area);
    var found' := FindResource(rs', area);
    var k :| FirstMatchAt(rs', area, k) && rs'[k].id == found'.value;
    // rs'[i] matches, so the first match of the new list comes no later than i
    assert k <= i;
  }

  /**
   * Publishing is idempotent on the resource list. After a successful publication of an area
   * a later lookup finds a resource for it that carries the new archive's url, size and
   * checksum; a create adds exactly one matching resource to a list that had none, and an
   * update (what the next publication of the same area is) leaves the list's length unchanged.
   */
  lemma PublishFindsItsResource(rs: seq<Resource>, area: string, publicUrl: string,
                                archiveSize: nat, archiveSha1: string,
                                now: string, newId: string)
    requires forall i :: 0 <= i < |rs| ==> rs[i].id != newId
    ensures
      var req := Dispatch(FindResource(rs, area), ResourcePayload(area, publicUrl, archiveSize, archiveSha1), now);
      var rs' := Apply(rs, req, newId);
      var id := if req.CreateResource? then newId else req.id;
      && FindResource(rs', area) == Some(id)
      && (forall i :: 0 <= i < |rs'| && rs'[i].id == id ==>
            rs'[i].url == publicUrl && rs'[i].filesize == archiveSize && rs'[i].checksum == archiveSha1)
      && (req.CreateResource? ==> |rs'| == |rs| + 1 && CountMatches(rs', area) == 1)
      && (req.UpdateResource? ==> |rs'| == |rs|)
  {
    var found := FindResource(rs, area);
    var payload := ResourcePayload(area, publicUrl, archiveSize, archiveSha1);
    if found.None? {
      CreatedResourceFound(rs, area, payload, now, newId);
      var rs' := Apply(rs, CreateResource(payload, now), newId);
      forall i | 0 <= i < |rs'| && rs'[i].id == newId
        ensures rs'[i].url == publicUrl && rs'[i].filesize == archiveSize && rs'[i].checksum == archiveSha1
      {
        // the new id is fresh, so only the appended resource carries it
        assert i == |rs|;
      }
    } else {
      UpdatedResourceFound(rs, area, payload, now, found.value, newId);
    }
  }
}
