/** The vehicle registry (service/VehicleService.java): create, update and
    delete under the global licence-plate uniqueness constraint, plus the
    plate lookup and the per-client count. */
module VehicleService {
  import opened Common
  import opened Entities
  import opened Stores
  import VehicleMapper

  /** `validateVehicle`: the request names a client, then a non-blank plate. */
  function ValidateVehicle(dto: VehicleDto): (e: Option<Error>)
    ensures e.None? <==> dto.clientId.Some? && !IsBlank(dto.licensePlate)
    ensures e.Some? && dto.clientId.None? ==> e == Some(ClientIdRequired)
  {
    if dto.clientId.None? then Some(ClientIdRequired)
    else if IsBlank(dto.licensePlate) then Some(LicensePlateRequired)
    else None
  }

  /** The first error `createVehicle` raises, if any: validation, then plate
      uniqueness, then the client lookup. */
  function CreateVehicleError(users: map<Id, User>, vehicles: map<Id, Vehicle>, dto: VehicleDto): (e: Option<Error>)
    ensures e.None? <==>
      && ValidateVehicle(dto).None?
      && !PlateExists(vehicles, dto.licensePlate.value)
      && dto.clientId.value in users
  {
    if ValidateVehicle(dto).Some? then ValidateVehicle(dto)
    else if PlateExists(vehicles, dto.licensePlate.value) then Some(LicensePlateTaken)
    else if dto.clientId.value !in users then Some(ClientNotFound)
    else None
  }

  /** Validation errors come before a taken plate, which comes before an unknown client. */
  lemma CreateChecksInOrder(users: map<Id, User>, vehicles: map<Id, Vehicle>, dto: VehicleDto)
    ensures var e := CreateVehicleError(users, vehicles, dto);
      && (ValidateVehicle(dto).Some? ==> e == ValidateVehicle(dto))
      && (ValidateVehicle(dto).None? && PlateExists(vehicles, dto.licensePlate.value) ==> e == Some(LicensePlateTaken))
      && (ValidateVehicle(dto).None? && !PlateExists(vehicles, dto.licensePlate.value) && dto.clientId.value !in users
          ==> e == Some(ClientNotFound))
  {
  }

  /** Storing a vehicle whose plate is new keeps plates unique. */
  lemma {:induction false} InsertKeepsPlatesUnique(vehicles: map<Id, Vehicle>, id: Id, v: Vehicle)
    requires PlatesUnique(vehicles) && id !in vehicles
    requires v.licensePlate.Some? && !PlateExists(vehicles, v.licensePlate.value)
    ensures PlatesUnique(vehicles[id := v])
  {
    forall k | k in vehicles
      ensures vehicles[k].licensePlate != v.licensePlate
    {
      assert vehicles[k].licensePlate in Plates(vehicles);
    }
  }

  /** Re-plating a stored vehicle keeps plates unique when the new plate is
      its own or held by no vehicle. */
  lemma {:induction false} ReplateKeepsPlatesUnique(vehicles: map<Id, Vehicle>, id: Id, v: Vehicle)
    requires PlatesUnique(vehicles) && id in vehicles
    requires v.licensePlate.Some?
    requires v.licensePlate == vehicles[id].licensePlate || !PlateExists(vehicles, v.licensePlate.value)
    ensures PlatesUnique(vehicles[id := v])
  {
    forall k | k in vehicles && k != id
      ensures vehicles[k].licensePlate != v.licensePlate
    {
      assert vehicles[k].licensePlate in Plates(vehicles);
    }
  }

  /** `createVehicle`: refuses with the first failing check and leaves the
      store unchanged, or adds exactly one vehicle, built by the mapper from
      the request and owned by the requested client. Plates stay unique. */
  method CreateVehicle(s: Store, dto: VehicleDto) returns (r: Result<Id>)
    requires s.Valid()
    modifies s`vehicles, s`nextVehicleId
    ensures s.Valid()
    ensures r.Failure? <==> CreateVehicleError(s.users, old(s.vehicles), dto).Some?
    ensures r.Failure? ==> r.error == CreateVehicleError(s.users, old(s.vehicles), dto).value && unchanged(s)
    ensures r.Success? ==>
      && r.value !in old(s.vehicles)
      && s.vehicles.Keys == old(s.vehicles.Keys) + {r.value}
      && (forall id :: id in old(s.vehicles) ==> s.vehicles[id] == old(s.vehicles)[id])
      && PlateExists(s.vehicles, dto.licensePlate.value)
    ensures r.Success? ==> var v := s.vehicles[r.value];
      && v.client == dto.clientId && v.id == Some(r.value)
      && v.licensePlate == dto.licensePlate && v.model == dto.model && v.vehicleType == dto.vehicleType
      && v.yearOfManufacture == dto.yearOfManufacture && v.capacity == dto.capacity
      && v.createdAt.None?
  {
    var invalid := ValidateVehicle(dto);
    if invalid.Some? {
      return Failure(invalid.value);
    }
    if PlateExists(s.vehicles, dto.licensePlate.value) {
      return Failure(LicensePlateTaken);
    }
    var client := dto.clientId.value;
    if client !in s.users {
      return Failure(ClientNotFound);
    }

    var vehicle := VehicleMapper.ToEntity(Some(dto)).value;
    vehicle := vehicle.(client := Some(client));
    // saving assigns the identity
    var id := s.nextVehicleId;
    vehicle := vehicle.(id := Some(id));
    InsertKeepsPlatesUnique(s.vehicles, id, vehicle);
    s.vehicles := s.vehicles[id := vehicle];
    s.nextVehicleId := id + 1;
    assert s.vehicles[id].licensePlate in Plates(s.vehicles);
    r := Success(id);
  }

  /** `updateVehicle`: an unknown id fails; a new plate that another vehicle
      holds fails, while keeping the vehicle's own plate skips the check.
      Otherwise plate, model, type, year and capacity are overwritten and the
      owning client, the id and the creation time stay. Plates stay unique.
      The controller has already refused a blank plate. */
  method UpdateVehicle(s: Store, id: Id, dto: VehicleDto) returns (r: Outcome)
    requires s.Valid()
    requires !IsBlank(dto.licensePlate)
    modifies s`vehicles
    ensures s.Valid()
    ensures r.Pass? <==>
      && id in old(s.vehicles)
      && (old(s.vehicles)[id].licensePlate == dto.licensePlate || !PlateExists(old(s.vehicles), dto.licensePlate.value))
    ensures r.Fail? ==> unchanged(s)
    ensures r.Fail? ==> r.error == if id !in old(s.vehicles) then VehicleNotFound else LicensePlateTaken
    ensures r.Pass? ==>
      && s.vehicles.Keys == old(s.vehicles.Keys)
      && (forall other :: other in s.vehicles && other != id ==> s.vehicles[other] == old(s.vehicles)[other])
    ensures r.Pass? ==> var before, after := old(s.vehicles)[id], s.vehicles[id];
      && after.licensePlate == dto.licensePlate && after.model == dto.model && after.vehicleType == dto.vehicleType
      && after.yearOfManufacture == dto.yearOfManufacture && after.capacity == dto.capacity
      && after.id == before.id && after.client == before.client && after.createdAt == before.createdAt
  {
    if id !in s.vehicles {
      return Fail(VehicleNotFound);
    }
    var vehicle := s.vehicles[id];
    var plate := dto.licensePlate.value;
    if vehicle.licensePlate != Some(plate) && PlateExists(s.vehicles, plate) {
      return Fail(LicensePlateTaken);
    }
    vehicle := vehicle.(licensePlate := dto.licensePlate);
    vehicle := vehicle.(model := dto.model);
    vehicle := vehicle.(vehicleType := dto.vehicleType);
    vehicle := vehicle.(yearOfManufacture := dto.yearOfManufacture);
    vehicle := vehicle.(capacity := dto.capacity);
    ReplateKeepsPlatesUnique(s.vehicles, id, vehicle);
    s.vehicles := s.vehicles[id := vehicle];
    r := Pass;
  }

  /** `deleteVehicle`: an unknown id fails; otherwise exactly that vehicle is removed. */
  method DeleteVehicle(s: Store, id: Id) returns (r: Outcome)
    requires s.Valid()
    modifies s`vehicles
    ensures s.Valid()
    ensures r.Fail? <==> id !in old(s.vehicles)
    ensures r.Fail? ==> r.error == VehicleNotFound && unchanged(s)
    ensures r.Pass? ==> s.vehicles == old(s.vehicles) - {id}
  {
    if id !in s.vehicles {
      return Fail(VehicleNotFound);
    }
    s.vehicles := s.vehicles - {id};
    r := Pass;
  }

  /** `licensePlateExists`: true exactly when some stored vehicle carries the
      plate; in a valid store that vehicle is the only one. */
  function LicensePlateExists(s: Store, plate: string): (b: bool)
    reads s
    ensures b <==> exists id :: id in s.vehicles && s.vehicles[id].licensePlate == Some(plate)
    ensures s.Valid() && b ==> forall a, c ::
      (a in s.vehicles && c in s.vehicles && s.vehicles[a].licensePlate == Some(plate)
       && s.vehicles[c].licensePlate == Some(plate)) ==> a == c
  {
    PlateExists(s.vehicles, plate)
  }

  /** `getVehiclesCountByClient`: an unknown client fails; otherwise the
      number of vehicles that client owns. */
  function GetVehiclesCountByClient(s: Store, clientId: Id): (r: Result<nat>)
    reads s
    ensures r.Failure? <==> clientId !in s.users
    ensures r.Failure? ==> r.error == ClientNotFound
    ensures r.Success? ==> r.value == |set id | id in s.vehicles && s.vehicles[id].client == Some(clientId)|
  {
    if clientId !in s.users then Failure(ClientNotFound) else Success(VehicleCount(s.vehicles, clientId))
  }

  /** Creating a vehicle for `client` adds one to that client's count and
      leaves every other client's count alone. */
  lemma {:induction false} CountAfterCreate(vehicles: map<Id, Vehicle>, id: Id, v: Vehicle, client: Id)
    requires id !in vehicles
    ensures VehicleCount(vehicles[id := v], client) == VehicleCount(vehicles, client) + (if v.client == Some(client) then 1 else 0)
  {
    var m := vehicles[id := v];
    var before := set k | k in vehicles && vehicles[k].client == Some(client);
    var after := set k | k in m && m[k].client == Some(client);
    if v.client == Some(client) {
      assert after == before + {id};
    } else {
      assert after == before;
    }
  }

  /** Deleting a vehicle takes one off its owner's count and leaves every
      other client's count alone. */
  lemma {:induction false} CountAfterDelete(vehicles: map<Id, Vehicle>, id: Id, client: Id)
    requires id in vehicles
    ensures VehicleCount(vehicles - {id}, client) + (if vehicles[id].client == Some(client) then 1 else 0)
         == VehicleCount(vehicles, client)
  {
    var m := vehicles - {id};
    var before := set k | k in vehicles && vehicles[k].client == Some(client);
    var after := set k | k in m && m[k].client == Some(client);
    if vehicles[id].client == Some(client) {
      assert before == after + {id};
    } else {
      assert after == before;
    }
  }

  /** Updating a vehicle keeps its owner, so no client's count changes. */
  lemma {:induction false} CountAfterUpdate(vehicles: map<Id, Vehicle>, id: Id, v: Vehicle, client: Id)
    requires id in vehicles && v.client == vehicles[id].client
    ensures VehicleCount(vehicles[id := v], client) == VehicleCount(vehicles, client)
  {
    var m := vehicles[id := v];
    assert (set k | k in m && m[k].client == Some(client)) == (set k | k in vehicles && vehicles[k].client == Some(client));
  }
}
