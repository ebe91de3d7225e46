/** The theaters controller: public reads, and Admin-only create, update and
    delete, each checking its preconditions in a fixed order. */
module Theaters {
  import opened Nullable
  import opened Strings
  import opened Http
  import opened CookieAuth
  import opened Data

  const AdminRole := "Admin"
  const MaxNameLength := 120

  /** The request and response body: name and address may be null. */
  datatype TheaterDto = TheaterDto(id: int, name: Option<string>, address: Option<string>, seatCount: int)

  /** `IsInvalid(dto)`: a blank or over-long name, a blank address, or no
      seats. A body passes exactly when it has a name of 1 to 120 characters
      with a character that is not white space, an address with one too, and
      a positive seat count. */
  predicate IsInvalid(dto: TheaterDto)
    ensures !IsInvalid(dto) <==>
      && dto.name.Some? && 1 <= |dto.name.value| <= MaxNameLength
      && (exists i :: 0 <= i < |dto.name.value| && !IsWhiteSpace(dto.name.value[i]))
      && dto.address.Some?
      && (exists i :: 0 <= i < |dto.address.value| && !IsWhiteSpace(dto.address.value[i]))
      && dto.seatCount > 0
  {
    || IsNullOrWhiteSpace(dto.name)
    || |dto.name.value| > MaxNameLength
    || IsNullOrWhiteSpace(dto.address)
    || dto.seatCount <= 0
  }

  /** The projection `GetTheaterDtos` applies to each row. */
  function ToDto(t: Theater): TheaterDto
  {
    TheaterDto(t.id, Some(t.name), Some(t.address), t.seatCount)
  }

  /** The rows would all pass the controller's validation. */
  predicate AllAcceptable(ts: seq<Theater>)
  {
    forall i :: 0 <= i < |ts| ==> !IsInvalid(ToDto(ts[i]))
  }

  /** `GetTheaterDtos`: every row projected to (Id, Name, Address, SeatCount),
      in table order. */
  function GetTheaterDtos(ts: seq<Theater>): (r: seq<TheaterDto>)
    ensures |r| == |ts|
    ensures forall i :: 0 <= i < |ts| ==> r[i] == ToDto(ts[i])
    decreases |ts|
  {
    if ts == [] then [] else [ToDto(ts[0])] + GetTheaterDtos(ts[1..])
  }

  /** `FirstOrDefault(x => x.Id == id)`: the position of the first row with
      that id, if any. */
  function FindTheater(ts: seq<Theater>, id: int): (r: Option<nat>)
    ensures r.None? <==> forall i :: 0 <= i < |ts| ==> ts[i].id != id
    ensures r.Some? ==> r.value < |ts| && ts[r.value].id == id
    ensures r.Some? ==> forall j :: 0 <= j < r.value ==> ts[j].id != id
    decreases |ts|
  {
    if ts == [] then None
    else if ts[0].id == id then Some(0)
    else match FindTheater(ts[1..], id)
      case None => None
      case Some(k) => Some(k + 1)
  }

  class TheatersController {
    const context: DataContext

    constructor (context: DataContext)
      ensures this.context == context
    {
      this.context := context;
    }

    /** `GET api/theaters`: open to everyone. */
    function GetAllTheaters(): (r: seq<TheaterDto>)
      reads context
      ensures |r| == |context.theaters|
      ensures forall i :: 0 <= i < |r| ==> r[i] == ToDto(context.theaters[i])
    {
      GetTheaterDtos(context.theaters)
    }

    /** `GET api/theaters/{id}`: open to everyone; 404 when no row has the id. */
    function GetTheaterById(id: int): (r: ActionResult<TheaterDto>)
      reads context
      ensures r == NotFound <==> forall i :: 0 <= i < |context.theaters| ==> context.theaters[i].id != id
      ensures r != NotFound ==>
        && r.Ok? && r.value.id == id
        && exists i :: 0 <= i < |context.theaters| && r.value == ToDto(context.theaters[i])
    {
      match FindTheater(context.theaters, id)
      case None => NotFound
      case Some(k) => Ok(GetTheaterDtos(context.theaters)[k])
    }

    /** `POST api/theaters`: 401, then 403 unless Admin, then 400 if invalid;
        otherwise one new row without a manager, and 201 with the new id. */
    method CreateTheater(user: AuthenticateResult, dto: TheaterDto) returns (r: ActionResult<TheaterDto>)
      requires context.Valid()
      modifies context`theaters, context`nextTheaterId
      ensures context.Valid()
      ensures !IsAuthenticated(user) ==> r == Unauthorized
      ensures IsAuthenticated(user) && !IsInRole(user, AdminRole) ==> r == Forbid
      ensures IsInRole(user, AdminRole) && IsInvalid(dto) ==> r == BadRequest
      ensures IsInRole(user, AdminRole) && !IsInvalid(dto) ==>
        var id := old(context.nextTheaterId);
        && r == Created(dto.(id := id))
        && context.theaters == old(context.theaters) + [Theater(id, dto.name.value, dto.address.value, dto.seatCount, None)]
      ensures !r.Created? ==> context.theaters == old(context.theaters) && context.nextTheaterId == old(context.nextTheaterId)
      ensures AllAcceptable(old(context.theaters)) ==> AllAcceptable(context.theaters)
    {
      if !IsAuthenticated(user) {
        return Unauthorized;
      }
      if !IsInRole(user, AdminRole) {
        return Forbid;
      }
      if IsInvalid(dto) {
        return BadRequest;
      }
      var theater := Theater(0, dto.name.value, dto.address.value, dto.seatCount, None);
      var id := context.Add(theater);
      r := Created(dto.(id := id));
    }

    /** `PUT api/theaters/{id}`: 401, then 404, then 403 unless Admin, then
        400 if invalid; otherwise the row's name, address and seat count are
        replaced, its id and manager kept, and 200 with the DTO under the id. */
    method UpdateTheater(user: AuthenticateResult, id: int, dto: TheaterDto) returns (r: ActionResult<TheaterDto>)
      requires context.Valid()
      modifies context`theaters
      ensures context.Valid()
      ensures !IsAuthenticated(user) ==> r == Unauthorized
      ensures IsAuthenticated(user) && FindTheater(old(context.theaters), id).None? ==> r == NotFound
      ensures IsAuthenticated(user) && FindTheater(old(context.theaters), id).Some? && !IsInRole(user, AdminRole) ==>
        r == Forbid
      ensures IsInRole(user, AdminRole) && FindTheater(old(context.theaters), id).Some? && IsInvalid(dto) ==>
        r == BadRequest
      ensures IsInRole(user, AdminRole) && FindTheater(old(context.theaters), id).Some? && !IsInvalid(dto) ==>
        var k := FindTheater(old(context.theaters), id).value;
        var before := old(context.theaters)[k];
        && r == Ok(dto.(id := id))
        && context.theaters == old(context.theaters)[k := before.(name := dto.name.value,
                                                                  address := dto.address.value,
                                                                  seatCount := dto.seatCount)]
      ensures !r.Ok? ==> context.theaters == old(context.theaters)
      ensures AllAcceptable(old(context.theaters)) ==> AllAcceptable(context.theaters)
    {
      if !IsAuthenticated(user) {
        return Unauthorized;
      }
      var found := FindTheater(context.theaters, id);
      if found.None? {
        return NotFound;
      }
      if !IsInRole(user, AdminRole) {
        return Forbid;
      }
      if IsInvalid(dto) {
        return BadRequest;
      }
      var k := found.value;
      var theater := context.theaters[k];
      context.Replace(k, theater.(name := dto.name.value, address := dto.address.value, seatCount := dto.seatCount));
      r := Ok(dto.(id := theater.id));
    }

    /** `DELETE api/theaters/{id}`: 401, then 404, then 403 unless Admin;
        otherwise exactly that row is removed, and 200. */
    method DeleteTheater(user: AuthenticateResult, id: int) returns (r: ActionResult<()>)
      requires context.Valid()
      modifies context`theaters
      ensures context.Valid()
      ensures !IsAuthenticated(user) ==> r == Unauthorized
      ensures IsAuthenticated(user) && FindTheater(old(context.theaters), id).None? ==> r == NotFound
      ensures IsAuthenticated(user) && FindTheater(old(context.theaters), id).Some? && !IsInRole(user, AdminRole) ==>
        r == Forbid
      ensures IsInRole(user, AdminRole) && FindTheater(old(context.theaters), id).Some? ==>
        var k := FindTheater(old(context.theaters), id).value;
        r == Ok(()) && context.theaters == old(context.theaters)[..k] + old(context.theaters)[k + 1..]
      ensures !r.Ok? ==> context.theaters == old(context.theaters)
      ensures r.Ok? ==> forall i :: 0 <= i < |context.theaters| ==> context.theaters[i].id != id
      ensures AllAcceptable(old(context.theaters)) ==> AllAcceptable(context.theaters)
    {
      if !IsAuthenticated(user) {
        return Unauthorized;
      }
      var found := FindTheater(context.theaters, id);
      if found.None? {
        return NotFound;
      }
      if !IsInRole(user, AdminRole) {
        return Forbid;
      }
      context.RemoveAt(found.value);
      r := Ok(());
    }
  }
}
