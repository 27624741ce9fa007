/**
 The source budget shared by all focused TypeScript programs (analyzer-runtimes/typescript/src/program.ts).
 Changed files reserve their bytes up front; each reservation is claimed at most once, by whichever
 program scope loads the file first.
 */
module ProgramSources {
  import opened Wrappers

  // ------------------------------------------------------------------ sums over maps

  ghost function MapSum<X>(m: map<X, nat>): nat {
    if m == map[] then 0
    else
      var k :| k in m;
      m[k] + MapSum(m - {k})
  }

  lemma {:induction false} MapSumRemove<X>(m: map<X, nat>, k: X)
    requires k in m
    ensures MapSum(m) == m[k] + MapSum(m - {k})
    decreases |m|
  {
    var j :| j in m && MapSum(m) == m[j] + MapSum(m - {j});
    if j != k {
      MapSumRemove(m - {j}, k);
      MapSumRemove(m - {k}, j);
      assert m - {j} - {k} == m - {k} - {j};
    }
  }

  lemma MapSumAdd<X>(m: map<X, nat>, k: X, v: nat)
    requires k !in m
    ensures MapSum(m[k := v]) == MapSum(m) + v && |m[k := v]| == |m| + 1
  {
    MapSumRemove(m[k := v], k);
    assert m[k := v] - {k} == m;
  }

  lemma MapSumReplace<X>(m: map<X, nat>, k: X, v: nat)
    requires k in m
    ensures MapSum(m[k := v]) == MapSum(m) - m[k] + v && |m[k := v]| == |m|
  {
    MapSumRemove(m, k);
    MapSumRemove(m[k := v], k);
    assert m[k := v] - {k} == m - {k};
    assert m[k := v].Keys == m.Keys;
  }

  // ------------------------------------------------------------------ the account

  /** What the budget is charged for: a reservation not yet claimed, or a file accepted by a scope. */
  datatype Entry<!S, !K> = Reserved(key: K) | Accepted(scope: S, key: K)

  /** Accepted bytes cover every charge, instances count the charges exactly, and both totals stay
      within their limits. */
  ghost predicate Balanced<X>(charges: map<X, nat>, bytes: int, instances: int, fileLimit: nat, byteLimit: nat) {
    && MapSum(charges) <= bytes <= byteLimit
    && instances == |charges| <= fileLimit
  }

  lemma ChargeBalanced<X>(charges: map<X, nat>, bytes: int, instances: int, fileLimit: nat, byteLimit: nat, x: X,
                          size: nat)
    requires Balanced(charges, bytes, instances, fileLimit, byteLimit) && x !in charges
    requires instances < fileLimit && size <= byteLimit - bytes
    ensures Balanced(charges[x := size], bytes + size, instances + 1, fileLimit, byteLimit)
  {
    MapSumAdd(charges, x, size);
  }

  lemma GrowBalanced<X>(charges: map<X, nat>, bytes: int, instances: int, fileLimit: nat, byteLimit: nat, x: X,
                        size: nat)
    requires Balanced(charges, bytes, instances, fileLimit, byteLimit) && x in charges && charges[x] <= size
    requires size - charges[x] <= byteLimit - bytes
    ensures Balanced(charges[x := size], bytes + size - charges[x], instances, fileLimit, byteLimit)
  {
    MapSumReplace(charges, x, size);
  }

  lemma ClaimBalanced<X>(charges: map<X, nat>, bytes: int, instances: int, fileLimit: nat, byteLimit: nat,
                         reservation: X, x: X, size: nat, extra: nat)
    requires Balanced(charges, bytes, instances, fileLimit, byteLimit) && reservation in charges && x !in charges
    requires size <= charges[reservation] + extra && extra <= byteLimit - bytes
    ensures Balanced((charges - {reservation})[x := size], bytes + extra, instances, fileLimit, byteLimit)
  {
    MapSumRemove(charges, reservation);
    MapSumAdd(charges - {reservation}, x, size);
    assert charges.Keys == (charges - {reservation}).Keys + {reservation};
  }

  // ------------------------------------------------------------------ reserving changed files

  datatype Account<!K> = Account(instances: int, bytes: int, reserved: map<K, nat>, warned: bool)
  {
    ghost predicate HasRoom(size: nat, fileLimit: nat, byteLimit: nat) {
      instances < fileLimit && size <= byteLimit - bytes
    }
  }

  /** A changed file not reserved yet is reserved if it can be inspected and fits. */
  ghost function ReserveOne<K>(a: Account<K>, key: K, inspection: Option<nat>, fileLimit: nat,
                               byteLimit: nat): Account<K> {
    if key in a.reserved || inspection.None? then a
    else if !a.HasRoom(inspection.value, fileLimit, byteLimit) then a.(warned := true)
    else Account(a.instances + 1, a.bytes + inspection.value, a.reserved[key := inspection.value], a.warned)
  }

  /** The account after the first `n` changed files. */
  ghost function ReserveFirst<K>(a: Account<K>, changed: seq<(K, Option<nat>)>, n: nat, fileLimit: nat, byteLimit: nat)
    : Account<K>
    requires n <= |changed|
  {
    if n == 0 then a
    else ReserveOne(ReserveFirst(a, changed, n - 1, fileLimit, byteLimit), changed[n - 1].0, changed[n - 1].1,
                    fileLimit, byteLimit)
  }

  /** No reservation is taken back or resized, and what they add is charged exactly. */
  ghost predicate Grows<K>(a: Account<K>, b: Account<K>) {
    && (forall k :: k in a.reserved ==> k in b.reserved && b.reserved[k] == a.reserved[k])
    && b.instances - a.instances == |b.reserved| - |a.reserved| >= 0
    && b.bytes - a.bytes == MapSum(b.reserved) - MapSum(a.reserved) >= 0
  }

  lemma ReserveOneGrows<K>(a: Account<K>, key: K, inspection: Option<nat>, fileLimit: nat, byteLimit: nat)
    ensures Grows(a, ReserveOne(a, key, inspection, fileLimit, byteLimit))
  {
    if key !in a.reserved && inspection.Some? {
      MapSumAdd(a.reserved, key, inspection.value);
    }
  }

  ghost predicate Inspected<K>(changed: seq<(K, Option<nat>)>, n: nat, key: K, size: nat) {
    exists i :: 0 <= i < n && i < |changed| && changed[i] == (key, Some(size))
  }

  /** Reserved or, now and from now on, without room. */
  ghost predicate Settled<K>(a: Account<K>, key: K, inspection: Option<nat>, fileLimit: nat, byteLimit: nat) {
    inspection.None? || key in a.reserved || !a.HasRoom(inspection.value, fileLimit, byteLimit)
  }

  lemma GrowsTransitive<K>(a: Account<K>, b: Account<K>, c: Account<K>)
    requires Grows(a, b) && Grows(b, c)
    ensures Grows(a, c)
  {
  }

  lemma {:induction false} ReserveFirstGrows<K>(a: Account<K>, changed: seq<(K, Option<nat>)>, n: nat,
                                                fileLimit: nat, byteLimit: nat)
    requires n <= |changed|
    ensures Grows(a, ReserveFirst(a, changed, n, fileLimit, byteLimit))
    decreases n
  {
    if n > 0 {
      var before, last := ReserveFirst(a, changed, n - 1, fileLimit, byteLimit), changed[n - 1];
      ReserveFirstGrows(a, changed, n - 1, fileLimit, byteLimit);
      ReserveOneGrows(before, last.0, last.1, fileLimit, byteLimit);
      GrowsTransitive(a, before, ReserveFirst(a, changed, n, fileLimit, byteLimit));
    }
  }

  lemma {:induction false} ReservedWasInspected<K>(a: Account<K>, changed: seq<(K, Option<nat>)>, n: nat,
                                                   fileLimit: nat, byteLimit: nat, key: K)
    requires n <= |changed|
    requires key in ReserveFirst(a, changed, n, fileLimit, byteLimit).reserved && key !in a.reserved
    ensures Inspected(changed, n, key, ReserveFirst(a, changed, n, fileLimit, byteLimit).reserved[key])
    decreases n
  {
    var before := ReserveFirst(a, changed, n - 1, fileLimit, byteLimit);
    if key in before.reserved {
      ReservedWasInspected(a, changed, n - 1, fileLimit, byteLimit, key);
    } else {
      assert changed[n - 1] == (key, Some(ReserveFirst(a, changed, n, fileLimit, byteLimit).reserved[key]));
    }
  }

  lemma SettledKept<K>(a: Account<K>, b: Account<K>, key: K, inspection: Option<nat>, fileLimit: nat, byteLimit: nat)
    requires Settled(a, key, inspection, fileLimit, byteLimit) && Grows(a, b)
    ensures Settled(b, key, inspection, fileLimit, byteLimit)
  {
  }

  /** A file that could be inspected is left out only if it does not fit; then it does not fit afterwards
      either. */
  lemma {:induction false} ReserveFirstSettles<K>(a: Account<K>, changed: seq<(K, Option<nat>)>, n: nat,
                                                  fileLimit: nat, byteLimit: nat, i: nat)
    requires i < n <= |changed|
    ensures Settled(ReserveFirst(a, changed, n, fileLimit, byteLimit), changed[i].0, changed[i].1, fileLimit, byteLimit)
    decreases n
  {
    var before, last := ReserveFirst(a, changed, n - 1, fileLimit, byteLimit), changed[n - 1];
    if i < n - 1 {
      ReserveFirstSettles(a, changed, n - 1, fileLimit, byteLimit, i);
      ReserveOneGrows(before, last.0, last.1, fileLimit, byteLimit);
      SettledKept(before, ReserveOne(before, last.0, last.1, fileLimit, byteLimit),
                  changed[i].0, changed[i].1, fileLimit, byteLimit);
    }
  }

  // ------------------------------------------------------------------ scopes and the budget

  function Excess(fileBytes: nat, covered: nat): nat {
    if fileBytes > covered then fileBytes - covered else 0
  }

  class ProgramSourceScope<K(==)> {
    const changedFileKeys: set<K>
    var acceptedFileBytesByKey: map<K, nat>

    constructor (changedFileKeys: set<K>)
      ensures this.changedFileKeys == changedFileKeys && acceptedFileBytesByKey == map[]
    {
      this.changedFileKeys := changedFileKeys;
      acceptedFileBytesByKey := map[];
    }
  }

  class ProgramSourceBudget<K(==, !new)> {
    const fileLimit: nat
    const byteLimit: nat
    var acceptedFileInstances: int
    var acceptedBytes: int
    var reservedChangedFileBytesByKey: map<K, nat>
    var claimedReservedChangedKeys: set<K>
    var warningEmitted: bool
    /** All scopes that draw on this budget, and everything the budget is charged for. */
    ghost var scopes: set<ProgramSourceScope<K>>
    ghost var charges: map<Entry<ProgramSourceScope<K>, K>, nat>

    /** The charges are exactly the unclaimed reservations and what every scope has accepted. */
    ghost predicate Coupled()
      reads this, scopes
    {
      && claimedReservedChangedKeys <= reservedChangedFileBytesByKey.Keys
      && (forall k :: Reserved(k) in charges <==>
            k in reservedChangedFileBytesByKey && k !in claimedReservedChangedKeys)
      && (forall k :: Reserved(k) in charges ==> charges[Reserved(k)] == reservedChangedFileBytesByKey[k])
      && (forall s, k :: s in scopes ==> (Accepted(s, k) in charges <==> k in s.acceptedFileBytesByKey))
      && (forall s, k :: s in scopes && Accepted(s, k) in charges ==>
            charges[Accepted(s, k)] == s.acceptedFileBytesByKey[k])
      && (forall e :: e in charges && e.Accepted? ==> e.scope in scopes)
    }

    ghost predicate Valid()
      reads this, scopes
    {
      Coupled() && Balanced(charges, acceptedBytes, acceptedFileInstances, fileLimit, byteLimit)
    }

    constructor (fileLimit: nat, byteLimit: nat)
      ensures Valid() && scopes == {} && reservedChangedFileBytesByKey == map[] && claimedReservedChangedKeys == {}
      ensures this.fileLimit == fileLimit && this.byteLimit == byteLimit
    {
      this.fileLimit, this.byteLimit := fileLimit, byteLimit;
      acceptedFileInstances, acceptedBytes := 0, 0;
      reservedChangedFileBytesByKey, claimedReservedChangedKeys := map[], {};
      warningEmitted := false;
      scopes, charges := {}, map[];
    }

    method Attach(scope: ProgramSourceScope<K>)
      requires Valid() && scope !in scopes && scope.acceptedFileBytesByKey == map[]
      modifies this`scopes
      ensures Valid() && scopes == old(scopes) + {scope}
    {
      scopes := scopes + {scope};
    }

    method MarkReached()
      modifies this`warningEmitted
      ensures warningEmitted
    {
      if !warningEmitted {
        warningEmitted := true;
      }
    }

    /** Whether one more instance of this size fits. */
    predicate Fits(fileBytes: nat)
      reads this
    {
      acceptedFileInstances < fileLimit && fileBytes <= byteLimit - acceptedBytes
    }

    method ReserveInstance(fileBytes: nat) returns (ok: bool)
      modifies this`acceptedFileInstances, this`acceptedBytes, this`warningEmitted
      ensures ok <==> old(Fits(fileBytes))
      ensures ok ==> acceptedFileInstances == old(acceptedFileInstances) + 1
                     && acceptedBytes == old(acceptedBytes) + fileBytes && warningEmitted == old(warningEmitted)
      ensures !ok ==> acceptedFileInstances == old(acceptedFileInstances)
                      && acceptedBytes == old(acceptedBytes) && warningEmitted
    {
      if acceptedFileInstances >= fileLimit || fileBytes > byteLimit - acceptedBytes {
        MarkReached();
        return false;
      }
      acceptedFileInstances := acceptedFileInstances + 1;
      acceptedBytes := acceptedBytes + fileBytes;
      return true;
    }

    ghost function Books(): Account<K>
      reads this
    {
      Account(acceptedFileInstances, acceptedBytes, reservedChangedFileBytesByKey, warningEmitted)
    }

    method ReserveOneChanged(key: K, inspection: Option<nat>)
      requires Valid()
      modifies this`acceptedFileInstances, this`acceptedBytes, this`warningEmitted, this`reservedChangedFileBytesByKey,
               this`charges
      ensures Valid() && Books() == ReserveOne(old(Books()), key, inspection, fileLimit, byteLimit)
    {
      if key in reservedChangedFileBytesByKey || inspection.None? {
        return;
      }
      ghost var bytes, instances := acceptedBytes, acceptedFileInstances;
      var ok := ReserveInstance(inspection.value);
      if ok {
        ChargeBalanced(charges, bytes, instances, fileLimit, byteLimit, Reserved(key), inspection.value);
        charges := charges[Reserved(key) := inspection.value];
        reservedChangedFileBytesByKey := reservedChangedFileBytesByKey[key := inspection.value];
      }
    }

    /** Reserves every changed file that can be inspected and still fits. `changed` pairs a key with the
        inspected size, if any. */
    method ReserveChanged(changed: seq<(K, Option<nat>)>)
      requires Valid()
      modifies this`acceptedFileInstances, this`acceptedBytes, this`warningEmitted, this`reservedChangedFileBytesByKey,
               this`charges
      ensures Valid() && Books() == ReserveFirst(old(Books()), changed, |changed|, fileLimit, byteLimit)
    {
      for i := 0 to |changed|
        invariant Valid() && Books() == ReserveFirst(old(Books()), changed, i, fileLimit, byteLimit)
      {
        ReserveOneChanged(changed[i].0, changed[i].1);
      }
    }

    /** A first load of `key` by this scope finds a reservation that is not claimed yet. */
    predicate HoldsReservation(key: K, scope: ProgramSourceScope<K>)
      reads this, scope
    {
      && key !in scope.acceptedFileBytesByKey && key in scope.changedFileKeys
      && key in reservedChangedFileBytesByKey && key !in claimedReservedChangedKeys
    }

    /** The books after a load: the file at this size, and these totals. */
    predicate ChargedTo(key: K, booked: nat, scope: ProgramSourceScope<K>, was: map<K, nat>, bytes: int,
                        instances: int, claimed: set<K>)
      reads this, scope
    {
      && scope.acceptedFileBytesByKey == was[key := booked] && acceptedBytes == bytes
      && acceptedFileInstances == instances && claimedReservedChangedKeys == claimed
    }

    predicate Unchanged(scope: ProgramSourceScope<K>, was: map<K, nat>, bytes: int, instances: int, claimed: set<K>)
      reads this, scope
    {
      && scope.acceptedFileBytesByKey == was && acceptedBytes == bytes
      && acceptedFileInstances == instances && claimedReservedChangedKeys == claimed
    }

    /** Books a file as accepted by a scope; the bytes are charged by the caller. */
    method RecordAccepted(key: K, fileBytes: nat, scope: ProgramSourceScope<K>)
      requires Coupled() && scope in scopes
      modifies this`charges, scope
      ensures Coupled() && charges == old(charges)[Accepted(scope, key) := fileBytes]
      ensures scope.acceptedFileBytesByKey == old(scope.acceptedFileBytesByKey)[key := fileBytes]
    {
      scope.acceptedFileBytesByKey := scope.acceptedFileBytesByKey[key := fileBytes];
      charges := charges[Accepted(scope, key) := fileBytes];
    }

    /** Turns a reservation into a file accepted by a scope. */
    method MoveReservation(key: K, fileBytes: nat, scope: ProgramSourceScope<K>)
      requires Coupled() && scope in scopes && key in reservedChangedFileBytesByKey
      modifies this`claimedReservedChangedKeys, this`charges, scope
      ensures Coupled() && charges == (old(charges) - {Reserved(key)})[Accepted(scope, key) := fileBytes]
      ensures claimedReservedChangedKeys == old(claimedReservedChangedKeys) + {key}
      ensures scope.acceptedFileBytesByKey == old(scope.acceptedFileBytesByKey)[key := fileBytes]
    {
      claimedReservedChangedKeys := claimedReservedChangedKeys + {key};
      charges := charges - {Reserved(key)};
      RecordAccepted(key, fileBytes, scope);
    }

    method ClaimReserved(key: K, fileBytes: nat, scope: ProgramSourceScope<K>) returns (ok: bool)
      requires Valid() && scope in scopes && HoldsReservation(key, scope)
      modifies this`acceptedBytes, this`warningEmitted, this`claimedReservedChangedKeys, this`charges, scope
      ensures Valid()
      ensures var reserved := reservedChangedFileBytesByKey[key];
              && (ok <==> fileBytes <= reserved || fileBytes - reserved <= byteLimit - old(acceptedBytes))
              && (ok ==> ChargedTo(key, fileBytes, scope, old(scope.acceptedFileBytesByKey),
                                   old(acceptedBytes) + Excess(fileBytes, reserved), acceptedFileInstances,
                                   old(claimedReservedChangedKeys) + {key}))
      ensures !ok ==> Unchanged(scope, old(scope.acceptedFileBytesByKey), old(acceptedBytes), acceptedFileInstances,
                                old(claimedReservedChangedKeys))
      ensures warningEmitted == (old(warningEmitted) || !ok)
    {
      var reserved := reservedChangedFileBytesByKey[key];
      var additionalBytes := Excess(fileBytes, reserved);
      if additionalBytes > 0 && additionalBytes > byteLimit - acceptedBytes {
        MarkReached();
        return false;
      }
      ClaimBalanced(charges, acceptedBytes, acceptedFileInstances, fileLimit, byteLimit,
                    Reserved(key), Accepted(scope, key), fileBytes, additionalBytes);
      acceptedBytes := acceptedBytes + additionalBytes;
      MoveReservation(key, fileBytes, scope);
      return true;
    }

    /** A file the scope has accepted before. */
    method LoadAgain(key: K, fileBytes: nat, scope: ProgramSourceScope<K>) returns (ok: bool)
      requires Valid() && scope in scopes && key in scope.acceptedFileBytesByKey
      modifies this`acceptedBytes, this`warningEmitted, this`charges, scope
      ensures Valid()
      ensures var had := old(scope.acceptedFileBytesByKey)[key];
              && (ok <==> fileBytes <= had || fileBytes - had <= byteLimit - old(acceptedBytes))
              && (ok ==> ChargedTo(key, if fileBytes <= had then had else fileBytes, scope,
                                   old(scope.acceptedFileBytesByKey), old(acceptedBytes) + Excess(fileBytes, had),
                                   acceptedFileInstances, claimedReservedChangedKeys))
      ensures !ok ==> Unchanged(scope, old(scope.acceptedFileBytesByKey), old(acceptedBytes), acceptedFileInstances,
                                claimedReservedChangedKeys)
      ensures warningEmitted == (old(warningEmitted) || !ok)
    {
      var previouslyAccepted := scope.acceptedFileBytesByKey[key];
      if fileBytes <= previouslyAccepted {
        return true;
      }
      var additionalBytes := fileBytes - previouslyAccepted;
      if additionalBytes > byteLimit - acceptedBytes {
        MarkReached();
        return false;
      }
      GrowBalanced(charges, acceptedBytes, acceptedFileInstances, fileLimit, byteLimit, Accepted(scope, key),
                   fileBytes);
      acceptedBytes := acceptedBytes + additionalBytes;
      RecordAccepted(key, fileBytes, scope);
      return true;
    }

    /** A file new to the scope that nothing was reserved for. */
    method LoadNew(key: K, fileBytes: nat, scope: ProgramSourceScope<K>) returns (ok: bool)
      requires Valid() && scope in scopes && key !in scope.acceptedFileBytesByKey
      modifies this`acceptedFileInstances, this`acceptedBytes, this`warningEmitted, this`charges, scope
      ensures Valid()
      ensures ok <==> old(acceptedFileInstances) < fileLimit && fileBytes <= byteLimit - old(acceptedBytes)
      ensures ok ==> ChargedTo(key, fileBytes, scope, old(scope.acceptedFileBytesByKey), old(acceptedBytes) + fileBytes,
                               old(acceptedFileInstances) + 1, claimedReservedChangedKeys)
      ensures !ok ==> Unchanged(scope, old(scope.acceptedFileBytesByKey), old(acceptedBytes),
                                old(acceptedFileInstances), claimedReservedChangedKeys)
      ensures warningEmitted == (old(warningEmitted) || !ok)
    {
      ghost var bytes, instances := acceptedBytes, acceptedFileInstances;
      ok := ReserveInstance(fileBytes);
      if !ok {
        return false;
      }
      ChargeBalanced(charges, bytes, instances, fileLimit, byteLimit, Accepted(scope, key), fileBytes);
      RecordAccepted(key, fileBytes, scope);
    }

    /** Loads a source file into one program scope; no other scope is touched. Files of the default library are
        free. A file the scope has pays for its growth, a reserved changed file for what it is larger than its
        reservation, and any other for itself and one instance; each is accepted exactly when that fits. */
    method ReserveFile(key: K, fileBytes: nat, scope: ProgramSourceScope<K>, defaultLibrary: bool) returns (ok: bool)
      requires Valid() && scope in scopes
      modifies this`acceptedFileInstances, this`acceptedBytes, this`warningEmitted, this`claimedReservedChangedKeys,
               this`charges, scope
      ensures Valid() && scopes == old(scopes)
      ensures defaultLibrary ==> ok
      ensures !ok || defaultLibrary ==>
        Unchanged(scope, old(scope.acceptedFileBytesByKey), old(acceptedBytes), old(acceptedFileInstances),
                  old(claimedReservedChangedKeys))
      ensures warningEmitted == (old(warningEmitted) || !ok)
      ensures !defaultLibrary && key in old(scope.acceptedFileBytesByKey) ==>
        var had := old(scope.acceptedFileBytesByKey)[key];
        && (ok <==> fileBytes <= had || fileBytes - had <= byteLimit - old(acceptedBytes))
        && (ok ==> ChargedTo(key, if fileBytes <= had then had else fileBytes, scope, old(scope.acceptedFileBytesByKey),
                             old(acceptedBytes) + (if fileBytes <= had then 0 else fileBytes - had),
                             old(acceptedFileInstances), old(claimedReservedChangedKeys)))
      ensures !defaultLibrary && old(HoldsReservation(key, scope)) ==>
        var reserved := old(reservedChangedFileBytesByKey)[key];
        && (ok <==> fileBytes <= reserved || fileBytes - reserved <= byteLimit - old(acceptedBytes))
        && (ok ==> ChargedTo(key, fileBytes, scope, old(scope.acceptedFileBytesByKey),
                             old(acceptedBytes) + (if fileBytes <= reserved then 0 else fileBytes - reserved),
                             old(acceptedFileInstances), old(claimedReservedChangedKeys) + {key}))
      ensures !defaultLibrary && key !in old(scope.acceptedFileBytesByKey) && !old(HoldsReservation(key, scope)) ==>
        && (ok <==> old(acceptedFileInstances) < fileLimit && fileBytes <= byteLimit - old(acceptedBytes))
        && (ok ==> ChargedTo(key, fileBytes, scope, old(scope.acceptedFileBytesByKey), old(acceptedBytes) + fileBytes,
                             old(acceptedFileInstances) + 1, old(claimedReservedChangedKeys)))
    {
      if defaultLibrary {
        return true;
      }
      if key in scope.acceptedFileBytesByKey {
        ok := LoadAgain(key, fileBytes, scope);
      } else if HoldsReservation(key, scope) {
        ok := ClaimReserved(key, fileBytes, scope);
      } else {
        ok := LoadNew(key, fileBytes, scope);
      }
    }

    /** One load. A load its reservation covers is accepted, and any other stays covered unless this one
        claims the reservation. */
    method LoadOne(load: Load<K>) returns (ok: bool)
      requires Valid() && load.scope in scopes
      modifies this`acceptedFileInstances, this`acceptedBytes, this`warningEmitted, this`claimedReservedChangedKeys,
               this`charges, load.scope
      ensures Valid() && scopes == old(scopes)
      ensures old(Outstanding(load)) ==> ok
      ensures !ok ==> old(acceptedFileInstances) >= fileLimit || load.fileBytes > byteLimit - old(acceptedBytes)
      ensures old(acceptedBytes) <= acceptedBytes <= old(acceptedBytes) + load.fileBytes
      ensures old(acceptedFileInstances) <= acceptedFileInstances <= old(acceptedFileInstances) + 1
      ensures || claimedReservedChangedKeys == old(claimedReservedChangedKeys)
              || (claimedReservedChangedKeys == old(claimedReservedChangedKeys) + {load.key} && ok && load.Claiming())
      ensures forall other: Load<K> :: other.scope in scopes && old(Outstanding(other)) ==>
        Outstanding(other) || other.key in claimedReservedChangedKeys
    {
      ok := ReserveFile(load.key, load.fileBytes, load.scope, load.defaultLibrary);
    }

    /** Many loads, in any order and into any scopes. Whatever else is loaded, a load of a changed file that
        has not outgrown its reservation is accepted, unless an earlier load claimed the reservation. A load is
        refused only if it does not fit, and then it does not fit at the end either; so if all of them fit
        together, all are accepted. */
    method LoadAll(loads: seq<Load<K>>) returns (accepted: seq<bool>)
      requires Valid() && forall i :: 0 <= i < |loads| ==> loads[i].scope in scopes
      modifies this`acceptedFileInstances, this`acceptedBytes, this`warningEmitted, this`claimedReservedChangedKeys,
               this`charges, scopes
      ensures Valid() && |accepted| == |loads|
      ensures forall i :: 0 <= i < |loads| && old(Outstanding(loads[i])) ==>
        accepted[i] || ClaimedBefore(loads, accepted, i, loads[i].key)
      ensures forall i :: 0 <= i < |loads| && !accepted[i] ==>
        acceptedFileInstances >= fileLimit || loads[i].fileBytes > byteLimit - acceptedBytes
      ensures old(acceptedFileInstances) + |loads| <= fileLimit
              && old(acceptedBytes) + LoadedBytes(loads, |loads|) <= byteLimit ==>
              forall i :: 0 <= i < |loads| ==> accepted[i]
    {
      accepted := [];
      ghost var instances, bytes := acceptedFileInstances, acceptedBytes;
      ghost var was := claimedReservedChangedKeys;
      ghost var covered := set n: nat | n < |loads| && Outstanding(loads[n]);
      for i := 0 to |loads|
        invariant Valid() && scopes == old(scopes) && |accepted| == i
        invariant Accounted(loads, accepted, covered, claimedReservedChangedKeys - was)
        invariant forall n :: n in covered && i <= n ==>
          Outstanding(loads[n]) || loads[n].key in claimedReservedChangedKeys - was
        invariant RoomUsed(loads, accepted, instances, bytes, acceptedFileInstances, acceptedBytes, fileLimit,
                           byteLimit)
      {
        var load := loads[i];
        ghost var before, claims := accepted, claimedReservedChangedKeys - was;
        ghost var filled, used := acceptedFileInstances, acceptedBytes;
        var ok := LoadOne(load);
        RoomUsedNext(loads, accepted, ok, instances, bytes, filled, used, acceptedFileInstances, acceptedBytes,
                     fileLimit, byteLimit);
        accepted := accepted + [ok];
        AccountedNext(loads, before, ok, covered, claims, claimedReservedChangedKeys - was);
      }
    }

    /** An unclaimed reservation covers this load. */
    predicate Outstanding(load: Load<K>)
      reads this, load.scope
    {
      && load.key in load.scope.changedFileKeys && load.key !in load.scope.acceptedFileBytesByKey
      && load.key in reservedChangedFileBytesByKey && load.key !in claimedReservedChangedKeys
      && load.fileBytes <= reservedChangedFileBytesByKey[load.key]
    }
  }

  datatype Load<!K> = Load(key: K, fileBytes: nat, scope: ProgramSourceScope<K>, defaultLibrary: bool)
  {
    /** Its scope lists the file as changed, so that it takes the reservation. */
    predicate Claiming() {
      key in scope.changedFileKeys && !defaultLibrary
    }
  }

  ghost function LoadedBytes<K>(loads: seq<Load<K>>, n: nat): nat
    requires n <= |loads|
  {
    if n == 0 then 0 else LoadedBytes(loads, n - 1) + loads[n - 1].fileBytes
  }

  /** What became of the loads so far, since the budget stood at `instances0` and `bytes0`: whatever was refused
      does not fit what is left, no more was used than was loaded, and nothing was refused if all loads fit. */
  ghost predicate RoomUsed<K>(loads: seq<Load<K>>, accepted: seq<bool>, instances0: int, bytes0: int, instances: int,
                              bytes: int, fileLimit: nat, byteLimit: nat) {
    && |accepted| <= |loads|
    && (forall i :: 0 <= i < |accepted| && !accepted[i] ==>
          instances >= fileLimit || loads[i].fileBytes > byteLimit - bytes)
    && instances <= instances0 + |accepted| && bytes <= bytes0 + LoadedBytes(loads, |accepted|)
    && (instances0 + |loads| <= fileLimit && bytes0 + LoadedBytes(loads, |loads|) <= byteLimit ==>
          forall i :: 0 <= i < |accepted| ==> accepted[i])
  }

  lemma {:induction false} LoadedBytesGrow<K>(loads: seq<Load<K>>, n: nat, m: nat)
    requires n <= m <= |loads|
    ensures LoadedBytes(loads, n) <= LoadedBytes(loads, m)
    decreases m
  {
    if n < m { LoadedBytesGrow(loads, n, m - 1); }
  }

  lemma RoomUsedNext<K>(loads: seq<Load<K>>, accepted: seq<bool>, ok: bool, instances0: int, bytes0: int,
                        instances: int, bytes: int, instances': int, bytes': int, fileLimit: nat, byteLimit: nat)
    requires RoomUsed(loads, accepted, instances0, bytes0, instances, bytes, fileLimit, byteLimit)
    requires |accepted| < |loads|
    requires instances <= instances' <= instances + 1 && bytes <= bytes' <= bytes + loads[|accepted|].fileBytes
    requires !ok ==> instances >= fileLimit || loads[|accepted|].fileBytes > byteLimit - bytes
    ensures RoomUsed(loads, accepted + [ok], instances0, bytes0, instances', bytes', fileLimit, byteLimit)
  {
    LoadedBytesGrow(loads, |accepted| + 1, |loads|);
  }

  /** One of the first `n` loads took the reservation of `key`. */
  ghost predicate ClaimedBefore<K>(loads: seq<Load<K>>, accepted: seq<bool>, n: nat, key: K) {
    exists m :: 0 <= m < n && m < |loads| && m < |accepted| && accepted[m] && loads[m].key == key && loads[m].Claiming()
  }

  /** Of the loads so far those in `covered` were accepted or too late, and the new `claims` are theirs. */
  ghost predicate Accounted<K>(loads: seq<Load<K>>, accepted: seq<bool>, covered: set<nat>, claims: set<K>) {
    && |accepted| <= |loads|
    && (forall n :: n in covered && n < |accepted| ==> accepted[n] || ClaimedBefore(loads, accepted, n, loads[n].key))
    && (forall k :: k in claims ==> ClaimedBefore(loads, accepted, |accepted|, k))
  }

  lemma ClaimKept<K>(loads: seq<Load<K>>, accepted: seq<bool>, ok: bool, n: nat, key: K)
    requires ClaimedBefore(loads, accepted, n, key)
    ensures ClaimedBefore(loads, accepted + [ok], n, key) && ClaimedBefore(loads, accepted + [ok], n + 1, key)
  {
    var m :| 0 <= m < n && m < |loads| && m < |accepted| && accepted[m] && loads[m].key == key && loads[m].Claiming();
    assert (accepted + [ok])[m];
  }

  lemma AccountedNext<K>(loads: seq<Load<K>>, accepted: seq<bool>, ok: bool, covered: set<nat>, claims: set<K>,
                         after: set<K>)
    requires Accounted(loads, accepted, covered, claims) && |accepted| < |loads|
    requires |accepted| in covered ==> ok || loads[|accepted|].key in claims
    requires after == claims || (after == claims + {loads[|accepted|].key} && ok && loads[|accepted|].Claiming())
    ensures Accounted(loads, accepted + [ok], covered, after)
  {
    var i := |accepted|;
    forall n | n in covered && n <= i
      ensures (accepted + [ok])[n] || ClaimedBefore(loads, accepted + [ok], n, loads[n].key)
    {
      if ClaimedBefore(loads, accepted, n, loads[n].key) { ClaimKept(loads, accepted, ok, n, loads[n].key); }
    }
    forall k | k in after ensures ClaimedBefore(loads, accepted + [ok], i + 1, k) {
      if k in claims {
        ClaimKept(loads, accepted, ok, i, k);
      } else {
        assert (accepted + [ok])[i];
      }
    }
  }
}
