/** Field-by-field conversion between the vehicle entity and its DTO
    (mapper/VehicleMapper.java). The entity's owning client is its id; the
    mapper reads the client's id and name through the user table. */
module VehicleMapper {
  import opened Common
  import opened Entities

  /** The six attributes both directions copy unchanged. */
  predicate SameAttributes(d: VehicleDto, v: Vehicle) {
    && d.id == v.id
    && d.licensePlate == v.licensePlate
    && d.model == v.model
    && d.vehicleType == v.vehicleType
    && d.yearOfManufacture == v.yearOfManufacture
    && d.capacity == v.capacity
  }

  /** The vehicle's owner is present: `toDto` dereferences it. */
  predicate HasOwner(vehicle: Vehicle, users: map<Id, User>) {
    vehicle.client.Some? && vehicle.client.value in users
  }

  /** `toDto`: null gives null; otherwise the attributes and the creation
      time are copied, the client id and name come from the owning user,
      and the update time stays unset. */
  function ToDto(vehicle: Option<Vehicle>, users: map<Id, User>): (r: Option<VehicleDto>)
    requires vehicle.Some? ==> HasOwner(vehicle.value, users)
    ensures r.None? <==> vehicle.None?
    ensures r.Some? ==> var v, d := vehicle.value, r.value;
      && SameAttributes(d, v)
      && d.clientId == v.client && d.clientName == users[v.client.value].name
      && d.createdAt == v.createdAt && d.updatedAt.None?
  {
    match vehicle
    case None => None
    case Some(v) =>
      var owner := users[v.client.value];
      Some(VehicleDto(v.id, v.licensePlate, v.model, v.vehicleType, v.yearOfManufacture, v.capacity,
                      v.client, owner.name, v.createdAt, None))
  }

  /** `toEntity`: null gives null; otherwise the attributes are copied and
      the client and the creation time stay unset. */
  function ToEntity(dto: Option<VehicleDto>): (r: Option<Vehicle>)
    ensures r.None? <==> dto.None?
    ensures r.Some? ==> SameAttributes(dto.value, r.value) && r.value.client.None? && r.value.createdAt.None?
  {
    match dto
    case None => None
    case Some(d) =>
      Some(Vehicle(d.id, d.licensePlate, d.model, d.vehicleType, d.yearOfManufacture, d.capacity, None, None))
  }

  /** DTO to entity and back, once a client is attached, keeps the six
      attributes and reports the attached client. */
  lemma DtoRoundTrip(dto: VehicleDto, client: Id, users: map<Id, User>)
    requires client in users
    ensures var v := ToEntity(Some(dto)).value.(client := Some(client));
      var back := ToDto(Some(v), users).value;
      && SameAttributes(back, v)
      && back.id == dto.id && back.licensePlate == dto.licensePlate && back.model == dto.model
      && back.vehicleType == dto.vehicleType && back.yearOfManufacture == dto.yearOfManufacture
      && back.capacity == dto.capacity
      && back.clientId == Some(client) && back.clientName == users[client].name
  {
  }

  /** Entity to DTO and back loses only the client and the creation time. */
  lemma EntityRoundTrip(vehicle: Vehicle, users: map<Id, User>)
    requires HasOwner(vehicle, users)
    ensures ToEntity(ToDto(Some(vehicle), users)) == Some(vehicle.(client := None, createdAt := None))
  {
  }
}
