/** The records the services read and write: the request DTOs and the
    persisted entities. Every nullable Java field is an `Option`. */
module Entities {
  import opened Common

  /** The three user roles. */
  datatype Role = Client | Driver | Admin

  /** The user request body (dto/UserDTO.java). `username`, `password` and
      `role` are non-null: the controller's `@NotBlank`/`@NotNull` check them. */
  datatype UserDto = UserDto(
    name: Option<string>,
    unp: Option<string>,
    email: Option<string>,
    activityType: Option<string>,
    username: string,
    password: string,
    role: Role)

  /** A stored user, keyed by its id in the store. `unp` is the value of the
      reference-table row the user is bound to. */
  datatype User = User(
    username: string,
    password: string,
    role: Role,
    name: Option<string>,
    email: Option<string>,
    activityType: Option<string>,
    unp: Option<string>,
    verified: bool)

  /** The vehicle entity (entity/Vehicle.java); `client` is the owner's id. */
  datatype Vehicle = Vehicle(
    id: Option<Id>,
    licensePlate: Option<string>,
    model: Option<string>,
    vehicleType: Option<string>,
    yearOfManufacture: Option<int>,
    capacity: Option<real>,
    client: Option<Id>,
    createdAt: Option<Instant>)

  /** The vehicle request and response body (dto/VehicleDTO.java). */
  datatype VehicleDto = VehicleDto(
    id: Option<Id>,
    licensePlate: Option<string>,
    model: Option<string>,
    vehicleType: Option<string>,
    yearOfManufacture: Option<int>,
    capacity: Option<real>,
    clientId: Option<Id>,
    clientName: Option<string>,
    createdAt: Option<Instant>,
    updatedAt: Option<Instant>)

  /** The activity entity, with the fields its mapper touches; `user` is the owner's id. */
  datatype Activity = Activity(
    id: Option<Id>,
    user: Option<Id>,
    description: Option<string>,
    activityDate: Option<Instant>)

  /** The activity request and response body, with the fields its mapper touches. */
  datatype ActivityDto = ActivityDto(
    id: Option<Id>,
    userId: Option<Id>,
    userName: Option<string>,
    description: Option<string>,
    activityDate: Option<Instant>)

  /** The nine shipment fields of a declaration: those a client submits and
      may later edit while the declaration is PENDING. */
  datatype Shipment = Shipment(
    declarationType: Option<string>,
    tnvedCode: Option<string>,
    productDescription: Option<string>,
    productValue: Option<real>,
    netWeight: Option<real>,
    quantity: Option<int>,
    countryOfOrigin: Option<string>,
    countryOfDestination: Option<string>,
    customsOffice: Option<string>)

  /** The declaration request body, with the fields the service reads. */
  datatype DeclarationDto = DeclarationDto(clientId: Option<Id>, shipment: Shipment)

  /** A stored declaration. */
  datatype Declaration = Declaration(
    client: Id,
    declarationNumber: string,
    status: Option<string>,
    submittedAt: Option<Instant>,
    reviewedAt: Option<Instant>,
    shipment: Shipment)

  /** The status in which a declaration may still be edited or deleted. */
  const Pending: string := "PENDING"
  const Approved: string := "APPROVED"
  const Rejected: string := "REJECTED"
}
