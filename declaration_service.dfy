/** The customs-declaration lifecycle (service/DeclarationService.java):
    create with validation, defaults and a generated number; edit and
    delete only while PENDING; status change without any guard; per-client
    counts. The clock and the calendar year are parameters. */
module DeclarationService {
  import opened Common
  import opened Entities
  import opened Stores
  import opened DeclarationNumbers

  /** `validateDeclaration`: the first failing check decides the error. The
      request passes exactly when it names a client, a declaration type, a
      product description and a non-negative product value. */
  function ValidateDeclaration(dto: DeclarationDto): (e: Option<Error>)
    ensures e.None? <==>
      && dto.clientId.Some?
      && !IsBlank(dto.shipment.declarationType)
      && !IsBlank(dto.shipment.productDescription)
      && dto.shipment.productValue.Some? && dto.shipment.productValue.value >= 0.0
  {
    var sh := dto.shipment;
    if dto.clientId.None? then Some(ClientIdRequired)
    else if IsBlank(sh.declarationType) then Some(DeclarationTypeRequired)
    else if IsBlank(sh.productDescription) then Some(ProductDescriptionRequired)
    else if sh.productValue.None? || sh.productValue.value < 0.0 then Some(ProductValueInvalid)
    else None
  }

  /** The checks of `validateDeclaration`, in order. */
  lemma DeclarationChecksInOrder(dto: DeclarationDto)
    ensures var e, sh := ValidateDeclaration(dto), dto.shipment;
      && (dto.clientId.None? ==> e == Some(ClientIdRequired))
      && (dto.clientId.Some? && IsBlank(sh.declarationType) ==> e == Some(DeclarationTypeRequired))
      && (dto.clientId.Some? && !IsBlank(sh.declarationType) && IsBlank(sh.productDescription)
          ==> e == Some(ProductDescriptionRequired))
      && ((dto.clientId.Some? && !IsBlank(sh.declarationType) && !IsBlank(sh.productDescription)
           && (sh.productValue.None? || sh.productValue.value < 0.0)) ==> e == Some(ProductValueInvalid))
  {
  }

  /** A declaration may be edited or deleted only while its status is exactly "PENDING". */
  predicate IsPending(d: Declaration) {
    d.status == Some(Pending)
  }

  /** The statuses whose assignment stamps the review time. */
  predicate IsReviewStatus(status: Option<string>) {
    status == Some(Approved) || status == Some(Rejected)
  }

  /** The declaration `createDeclaration` stores once the guard passes: the
      request's shipment under the given client, number, submission time
      and status, not yet reviewed, with a null net weight or quantity
      replaced by zero. The product-value default cannot apply, because the
      guard refused a null value. */
  method NewDeclaration(dto: DeclarationDto, number: string, now: Instant, initialStatus: Option<string>)
    returns (d: Declaration)
    requires dto.clientId.Some? && dto.shipment.productValue.Some?
    ensures d.client == dto.clientId.value && d.declarationNumber == number
    ensures d.submittedAt == Some(now) && d.status == initialStatus && d.reviewedAt.None?
    ensures d.shipment.netWeight == (if dto.shipment.netWeight.None? then Some(0.0) else dto.shipment.netWeight)
    ensures d.shipment.quantity == (if dto.shipment.quantity.None? then Some(0) else dto.shipment.quantity)
    ensures d.shipment.(netWeight := dto.shipment.netWeight, quantity := dto.shipment.quantity) == dto.shipment
  {
    // declarationMapper.toEntity copies the shipment fields
    d := Declaration(dto.clientId.value, "", initialStatus, None, None, dto.shipment);
    d := d.(declarationNumber := number);
    d := d.(submittedAt := Some(now));
    var shipment := d.shipment;
    if shipment.productValue.None? {
      assert false;
    }
    if shipment.netWeight.None? {
      shipment := shipment.(netWeight := Some(0.0));
    }
    if shipment.quantity.None? {
      shipment := shipment.(quantity := Some(0));
    }
    d := d.(shipment := shipment);
  }

  /** `createDeclaration`: validation first, then the client lookup. On
      success one declaration is added for that client, numbered from the
      row count before the insert, stamped with the submission time, and
      with a null net weight or quantity replaced by zero. Its status is the
      one a new declaration starts with (`initialStatus`). */
  method CreateDeclaration(s: Store, dto: DeclarationDto, year: int, now: Instant, initialStatus: Option<string>)
    returns (r: Result<Id>)
    requires s.Valid()
    modifies s`declarations, s`nextDeclarationId
    ensures s.Valid()
    ensures r.Failure? <==> ValidateDeclaration(dto).Some? || dto.clientId.value !in s.users
    ensures r.Failure? ==> unchanged(s)
    ensures r.Failure? ==> r.error == if ValidateDeclaration(dto).Some? then ValidateDeclaration(dto).value else ClientNotFound
    ensures r.Success? ==>
      && r.value !in old(s.declarations)
      && s.declarations.Keys == old(s.declarations.Keys) + {r.value}
      && (forall id :: id in old(s.declarations) ==> s.declarations[id] == old(s.declarations)[id])
    ensures r.Success? ==> var d := s.declarations[r.value];
      && d.client == dto.clientId.value
      && d.declarationNumber == DeclarationNumber(year, |old(s.declarations)|)
      && d.submittedAt == Some(now)
      && d.status == initialStatus && d.reviewedAt.None?
      && d.shipment.netWeight == (if dto.shipment.netWeight.None? then Some(0.0) else dto.shipment.netWeight)
      && d.shipment.quantity == (if dto.shipment.quantity.None? then Some(0) else dto.shipment.quantity)
      && d.shipment.(netWeight := dto.shipment.netWeight, quantity := dto.shipment.quantity) == dto.shipment
  {
    var invalid := ValidateDeclaration(dto);
    if invalid.Some? {
      return Failure(invalid.value);
    }
    var client := dto.clientId.value;
    if client !in s.users {
      return Failure(ClientNotFound);
    }

    var d := NewDeclaration(dto, DeclarationNumber(year, |s.declarations|), now, initialStatus);
    var id := s.nextDeclarationId;
    s.declarations := s.declarations[id := d];
    s.nextDeclarationId := id + 1;
    r := Success(id);
  }

  /** `updateDeclaration`: an unknown id fails, then a declaration that is
      not PENDING fails; otherwise the nine shipment fields are overwritten
      with the request's (without validation) and nothing else changes. */
  method UpdateDeclaration(s: Store, id: Id, dto: DeclarationDto) returns (r: Outcome)
    requires s.Valid()
    modifies s`declarations
    ensures s.Valid()
    ensures r.Pass? <==> id in old(s.declarations) && IsPending(old(s.declarations)[id])
    ensures r.Fail? ==> unchanged(s)
    ensures r.Fail? ==> r.error == if id !in old(s.declarations) then DeclarationNotFound else DeclarationNotEditable
    ensures r.Pass? ==> s.declarations == old(s.declarations)[id := old(s.declarations)[id].(shipment := dto.shipment)]
  {
    if id !in s.declarations {
      return Fail(DeclarationNotFound);
    }
    var d := s.declarations[id];
    if !IsPending(d) {
      return Fail(DeclarationNotEditable);
    }
    d := d.(shipment := d.shipment.(declarationType := dto.shipment.declarationType));
    d := d.(shipment := d.shipment.(tnvedCode := dto.shipment.tnvedCode));
    d := d.(shipment := d.shipment.(productDescription := dto.shipment.productDescription));
    d := d.(shipment := d.shipment.(productValue := dto.shipment.productValue));
    d := d.(shipment := d.shipment.(netWeight := dto.shipment.netWeight));
    d := d.(shipment := d.shipment.(quantity := dto.shipment.quantity));
    d := d.(shipment := d.shipment.(countryOfOrigin := dto.shipment.countryOfOrigin));
    d := d.(shipment := d.shipment.(countryOfDestination := dto.shipment.countryOfDestination));
    d := d.(shipment := d.shipment.(customsOffice := dto.shipment.customsOffice));
    s.declarations := s.declarations[id := d];
    r := Pass;
  }

  /** `updateDeclarationStatus`: an unknown id fails; otherwise the status
      becomes the requested one whatever it was before, and the review time
      is stamped exactly when the new status is APPROVED or REJECTED. */
  method UpdateDeclarationStatus(s: Store, id: Id, status: Option<string>, now: Instant) returns (r: Outcome)
    requires s.Valid()
    modifies s`declarations
    ensures s.Valid()
    ensures r.Pass? <==> id in old(s.declarations)
    ensures r.Fail? ==> r.error == DeclarationNotFound && unchanged(s)
    ensures r.Pass? ==>
      && s.declarations.Keys == old(s.declarations.Keys)
      && (forall other :: other in s.declarations && other != id ==> s.declarations[other] == old(s.declarations)[other])
    ensures r.Pass? ==> var before, after := old(s.declarations)[id], s.declarations[id];
      && after.status == status
      && after.reviewedAt == (if IsReviewStatus(status) then Some(now) else before.reviewedAt)
      && after.(status := before.status, reviewedAt := before.reviewedAt) == before
  {
    if id !in s.declarations {
      return Fail(DeclarationNotFound);
    }
    var d := s.declarations[id];
    d := d.(status := status);
    if status == Some(Approved) || status == Some(Rejected) {
      d := d.(reviewedAt := Some(now));
    }
    s.declarations := s.declarations[id := d];
    r := Pass;
  }

  /** `deleteDeclaration`: an unknown id fails, then a declaration that is
      not PENDING fails; otherwise exactly that declaration is removed. */
  method DeleteDeclaration(s: Store, id: Id) returns (r: Outcome)
    requires s.Valid()
    modifies s`declarations
    ensures s.Valid()
    ensures r.Pass? <==> id in old(s.declarations) && IsPending(old(s.declarations)[id])
    ensures r.Fail? ==> unchanged(s)
    ensures r.Fail? ==> r.error == if id !in old(s.declarations) then DeclarationNotFound else DeclarationNotDeletable
    ensures r.Pass? ==> s.declarations == old(s.declarations) - {id}
  {
    if id !in s.declarations {
      return Fail(DeclarationNotFound);
    }
    if !IsPending(s.declarations[id]) {
      return Fail(DeclarationNotDeletable);
    }
    s.declarations := s.declarations - {id};
    r := Pass;
  }

  /** `getDeclarationsCountByClient`: an unknown client fails; otherwise the
      number of declarations that client owns. */
  function GetDeclarationsCountByClient(s: Store, clientId: Id): (r: Result<nat>)
    reads s
    ensures r.Failure? <==> clientId !in s.users
    ensures r.Failure? ==> r.error == ClientNotFound
    ensures r.Success? ==> r.value == |set id | id in s.declarations && s.declarations[id].client == clientId|
  {
    if clientId !in s.users then Failure(ClientNotFound) else Success(DeclarationCount(s.declarations, clientId))
  }

  /** `getDeclarationsCountByClientAndStatus`: an unknown client fails;
      otherwise the number of that client's declarations in that status,
      which never exceeds the number of that client's declarations. */
  function GetDeclarationsCountByClientAndStatus(s: Store, clientId: Id, status: Option<string>): (r: Result<nat>)
    reads s
    ensures r.Failure? <==> clientId !in s.users
    ensures r.Failure? ==> r.error == ClientNotFound
    ensures r.Success? ==>
      (r.value == |set id | id in s.declarations && s.declarations[id].client == clientId && s.declarations[id].status == status|)
    ensures r.Success? ==> r.value <= DeclarationCount(s.declarations, clientId)
  {
    if clientId !in s.users then Failure(ClientNotFound)
    else
      var mine := set id | id in s.declarations && s.declarations[id].client == clientId;
      var inStatus := set id | id in s.declarations && s.declarations[id].client == clientId && s.declarations[id].status == status;
      SubsetCardinality(inStatus, mine);
      Success(DeclarationCountWithStatus(s.declarations, clientId, status))
  }

  /** A subset is no larger than its superset. */
  lemma SubsetCardinality(a: set<Id>, b: set<Id>)
    requires a <= b
    ensures |a| <= |b|
  {
    assert b == a + (b - a);
    assert a * (b - a) == {};
  }

  /** Creating a declaration for `client` adds one to that client's count and
      leaves every other client's count alone. */
  lemma {:induction false} CountAfterCreate(declarations: map<Id, Declaration>, id: Id, d: Declaration, client: Id)
    requires id !in declarations
    ensures DeclarationCount(declarations[id := d], client)
         == DeclarationCount(declarations, client) + (if d.client == client then 1 else 0)
  {
    var m := declarations[id := d];
    var before := set k | k in declarations && declarations[k].client == client;
    var after := set k | k in m && m[k].client == client;
    if d.client == client {
      assert after == before + {id};
    } else {
      assert after == before;
    }
  }

  /** Changing a declaration's status leaves every client's declaration count alone. */
  lemma {:induction false} CountAfterStatusChange(declarations: map<Id, Declaration>, id: Id, status: Option<string>, reviewedAt: Option<Instant>, client: Id)
    requires id in declarations
    ensures DeclarationCount(declarations[id := declarations[id].(status := status, reviewedAt := reviewedAt)], client)
         == DeclarationCount(declarations, client)
  {
    var m := declarations[id := declarations[id].(status := status, reviewedAt := reviewedAt)];
    assert (set k | k in m && m[k].client == client) == (set k | k in declarations && declarations[k].client == client);
  }

  /** The row-count numbering reissues a number that is still in use. Take
      a declaration `kept` numbered, in this year, from the table size less
      one (the newest one, when nothing was deleted since it was created).
      Once a different declaration `gone` is deleted, the number the next
      create in the same year computes is `kept`'s, and `kept` is still
      stored. */
  lemma {:induction false} NumberReissuedAfterDelete(declarations: map<Id, Declaration>, year: int, gone: Id, kept: Id)
    requires gone in declarations && kept in declarations && gone != kept
    requires declarations[kept].declarationNumber == DeclarationNumber(year, |declarations| - 1)
    ensures kept in declarations - {gone}
    ensures DeclarationNumber(year, |declarations - {gone}|) == (declarations - {gone})[kept].declarationNumber
  {
    assert (declarations - {gone}).Keys + {gone} == declarations.Keys;
    assert |(declarations - {gone}).Keys| + 1 == |declarations.Keys|;
  }
}
