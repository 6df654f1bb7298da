/** The entity store the services share: one table per entity plus the UNP
    reference table, with the repository queries the services issue. */
module Stores {
  import opened Common
  import opened Entities

  /** `existsByUsername` */
  predicate UsernameExists(users: map<Id, User>, username: string) {
    exists id :: id in users && users[id].username == username
  }

  /** `existsByUnp_Unp`: some user is already bound to this UNP. */
  predicate UnpBound(users: map<Id, User>, unp: string) {
    exists id :: id in users && users[id].unp == Some(unp)
  }

  /** The licence plates in the vehicle table. */
  function Plates(vehicles: map<Id, Vehicle>): set<Option<string>> {
    set id | id in vehicles :: vehicles[id].licensePlate
  }

  /** `existsByLicensePlate` */
  predicate PlateExists(vehicles: map<Id, Vehicle>, plate: string) {
    Some(plate) in Plates(vehicles)
  }

  /** `username` is unique across users. */
  predicate UsernamesUnique(users: map<Id, User>) {
    forall a, b :: a in users && b in users && users[a].username == users[b].username ==> a == b
  }

  /** A UNP is bound to at most one user. */
  predicate UnpsBoundOnce(users: map<Id, User>) {
    forall a, b :: a in users && b in users && users[a].unp.Some? && users[a].unp == users[b].unp ==> a == b
  }

  /** `licensePlate` is unique across vehicles (entity/Vehicle.java, `unique = true`). */
  predicate PlatesUnique(vehicles: map<Id, Vehicle>) {
    forall a, b :: a in vehicles && b in vehicles && vehicles[a].licensePlate == vehicles[b].licensePlate ==> a == b
  }

  /** `countByClient` on the vehicle table. */
  function VehicleCount(vehicles: map<Id, Vehicle>, client: Id): nat {
    |set id | id in vehicles && vehicles[id].client == Some(client)|
  }

  /** `countByClient` on the declaration table. */
  function DeclarationCount(declarations: map<Id, Declaration>, client: Id): nat {
    |set id | id in declarations && declarations[id].client == client|
  }

  /** `countByClientAndStatus` on the declaration table. */
  function DeclarationCountWithStatus(declarations: map<Id, Declaration>, client: Id, status: Option<string>): nat {
    |set id | id in declarations && declarations[id].client == client && declarations[id].status == status|
  }

  /** Storing a user under a fresh id keeps usernames unique when the
      username is free, and UNPs bound once when its UNP is unbound. */
  lemma InsertUserKeepsUniqueness(users: map<Id, User>, id: Id, u: User)
    requires UsernamesUnique(users) && UnpsBoundOnce(users) && id !in users
    requires !UsernameExists(users, u.username)
    requires u.unp.Some? ==> !UnpBound(users, u.unp.value)
    ensures UsernamesUnique(users[id := u]) && UnpsBoundOnce(users[id := u])
  {
    assert forall b :: b in users ==> users[b].username != u.username;
    assert forall b :: b in users && u.unp.Some? ==> users[b].unp != u.unp;
  }

  /** The tables. Ids come from per-table identity counters. */
  class Store {
    var users: map<Id, User>
    var unps: set<string>
    var vehicles: map<Id, Vehicle>
    var declarations: map<Id, Declaration>
    var nextUserId: Id
    var nextVehicleId: Id
    var nextDeclarationId: Id

    /** The constraints the tables keep across every service operation. */
    ghost predicate Valid()
      reads this
    {
      && UsernamesUnique(users)
      && UnpsBoundOnce(users)
      && PlatesUnique(vehicles)
      && (forall id :: id in vehicles ==> vehicles[id].id == Some(id) && vehicles[id].licensePlate.Some?)
      && (forall id :: id in users ==> id < nextUserId)
      && (forall id :: id in vehicles ==> id < nextVehicleId)
      && (forall id :: id in declarations ==> id < nextDeclarationId)
    }

    /** Empty tables beside a given UNP reference table. */
    constructor (unps: set<string>)
      ensures Valid()
      ensures users == map[] && vehicles == map[] && declarations == map[] && this.unps == unps
    {
      users, vehicles, declarations := map[], map[], map[];
      this.unps := unps;
      nextUserId, nextVehicleId, nextDeclarationId := 1, 1, 1;
    }
  }
}
