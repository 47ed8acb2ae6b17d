/**
 * The permissions manager of the background script: optional browser
 * permissions are acquired just for the duration of a callback, and the
 * ones it had to ask for are released afterwards.
 */
module Permissions {

  import opened Wrappers
  import opened Seqs

  /** The distinct values of a sequence. */
  function Elements<T>(s: seq<T>): set<T>
  {
    set x | x in s
  }

  /** `permissions.contains`: every name and every origin asked about is granted. */
  predicate HoldsAll(names: seq<string>, origins: seq<string>, grantedNames: set<string>, grantedOrigins: set<string>)
  {
    Elements(names) <= grantedNames && Elements(origins) <= grantedOrigins
  }

  /** The answers of the per-name `hasPermissions([name], origins)` calls, in the order of the names. */
  function HeldStates(names: seq<string>, origins: seq<string>, grantedNames: set<string>, grantedOrigins: set<string>): (states: seq<bool>)
    ensures |states| == |names|
    ensures forall i :: 0 <= i < |names| ==> (states[i] <==> names[i] in grantedNames && Elements(origins) <= grantedOrigins)
  {
    seq(|names|, i requires 0 <= i < |names| => HoldsAll([names[i]], origins, grantedNames, grantedOrigins))
  }

  /** A call made to the `permissions` API, with the names and the origins it was given. */
  datatype ApiCall = RequestCall(names: seq<string>, origins: seq<string>) | RemoveCall(names: seq<string>, origins: seq<string>)

  /**
   * The browser's `permissions` API: the optional permissions and origins
   * granted right now, and the `request` and `remove` calls made so far
   * (`contains` changes nothing and is not recorded).
   */
  class BrowserPermissions {
    var names: set<string>
    var origins: set<string>
    var calls: seq<ApiCall>

    constructor(names: set<string>, origins: set<string>)
      ensures this.names == names && this.origins == origins && calls == []
    {
      this.names := names;
      this.origins := origins;
      calls := [];
    }

    /**
     * `permissions.request`: the user's answer `userAccepts` is what the
     * request resolves to, and an accepted request grants the names and the origins.
     */
    method Request(ns: seq<string>, os: seq<string>, userAccepts: bool) returns (granted: bool)
      modifies this
      ensures granted == userAccepts
      ensures names == old(names) + (if granted then Elements(ns) else {})
      ensures origins == old(origins) + (if granted then Elements(os) else {})
      ensures calls == old(calls) + [RequestCall(ns, os)]
    {
      if userAccepts {
        names := names + Elements(ns);
        origins := origins + Elements(os);
      }
      calls := calls + [RequestCall(ns, os)];
      granted := userAccepts;
    }

    /** `permissions.remove`: the names and the origins given are no longer granted. */
    method Remove(ns: seq<string>, os: seq<string>)
      modifies this
      ensures names == old(names) - Elements(ns)
      ensures origins == old(origins) - Elements(os)
      ensures calls == old(calls) + [RemoveCall(ns, os)]
    {
      names := names - Elements(ns);
      origins := origins - Elements(os);
      calls := calls + [RemoveCall(ns, os)];
    }
  }

  /**
   * The names whose state is `held`, in their original order: the list
   * `forEach` pushes them onto.
   */
  function NamesWithState(names: seq<string>, states: seq<bool>, held: bool): (r: seq<string>)
    requires |states| == |names|
    ensures |r| <= |names|
  {
    if names == [] then []
    else
      var n := |names| - 1;
      NamesWithState(names[..n], states[..n], held) + (if states[n] == held then [names[n]] else [])
  }

  /**
   * The `forEach` of useOptionalPermissions: each name goes to the list of
   * already held names or to the list of names still to ask for, by its own state.
   */
  method PartitionPermissionNames(names: seq<string>, states: seq<bool>) returns (active: seq<string>, inactive: seq<string>)
    requires |states| == |names|
    ensures active == NamesWithState(names, states, true)
    ensures inactive == NamesWithState(names, states, false)
  {
    active, inactive := [], [];
    var index := 0;
    while index < |names|
      invariant 0 <= index <= |names|
      invariant active == NamesWithState(names[..index], states[..index], true)
      invariant inactive == NamesWithState(names[..index], states[..index], false)
    {
      assert names[..index + 1][..index] == names[..index];
      assert states[..index + 1][..index] == states[..index];
      if states[index] {
        active := active + [names[index]];
      } else {
        inactive := inactive + [names[index]];
      }
      index := index + 1;
    }
    assert names[..index] == names && states[..index] == states;
  }

  /** A name paired with its state, as `forEach` visits them. */
  function Pairs(names: seq<string>, states: seq<bool>): (r: seq<(string, bool)>)
    requires |states| == |names|
    ensures |r| == |names|
    ensures forall i :: 0 <= i < |r| ==> r[i] == (names[i], states[i])
  {
    seq(|names|, i requires 0 <= i < |names| => (names[i], states[i]))
  }

  function HasState(held: bool): ((string, bool)) -> bool
  {
    (p: (string, bool)) => p.1 == held
  }

  function NameOf(): ((string, bool)) -> string
  {
    (p: (string, bool)) => p.0
  }

  /** Each list is the names with that state, filtered in order from the pairs: the input order is kept. */
  lemma {:induction false} PartitionKeepsOrder(names: seq<string>, states: seq<bool>, held: bool)
    requires |states| == |names|
    ensures NamesWithState(names, states, held) == FilterMap(Pairs(names, states), HasState(held), NameOf())
  {
    if names != [] {
      var n := |names| - 1;
      PartitionKeepsOrder(names[..n], states[..n], held);
      var pairs := Pairs(names, states);
      assert pairs == Pairs(names[..n], states[..n]) + [pairs[n]];
      FilterMapConcat(Pairs(names[..n], states[..n]), [pairs[n]], HasState(held), NameOf());
    }
  }

  /** Every name lands in exactly one of the two lists, as many times as it was asked for. */
  lemma {:induction false} PartitionIsExact(names: seq<string>, states: seq<bool>)
    requires |states| == |names|
    ensures multiset(NamesWithState(names, states, true)) + multiset(NamesWithState(names, states, false)) == multiset(names)
  {
    if names != [] {
      var n := |names| - 1;
      PartitionIsExact(names[..n], states[..n]);
      assert names == names[..n] + [names[n]];
    }
  }

  /** A name is in a list exactly when some occurrence of it has that state. */
  lemma {:induction false} PartitionMembers(names: seq<string>, states: seq<bool>, held: bool, x: string)
    requires |states| == |names|
    ensures x in NamesWithState(names, states, held) <==> exists i :: 0 <= i < |names| && names[i] == x && states[i] == held
  {
    if names != [] {
      var n := |names| - 1;
      PartitionMembers(names[..n], states[..n], held, x);
      if x in NamesWithState(names[..n], states[..n], held) {
        var i :| 0 <= i < n && names[..n][i] == x && states[..n][i] == held;
        assert names[i] == x && states[i] == held;
      }
      if exists i :: 0 <= i < |names| && names[i] == x && states[i] == held {
        var i :| 0 <= i < |names| && names[i] == x && states[i] == held;
        if i < n {
          assert names[..n][i] == x && states[..n][i] == held;
        }
      }
    }
  }

  /** The names useOptionalPermissions asks the user for: those not already held together with every origin. */
  function InactiveNames(names: seq<string>, origins: seq<string>, grantedNames: set<string>, grantedOrigins: set<string>): seq<string>
  {
    NamesWithState(names, HeldStates(names, origins, grantedNames, grantedOrigins), false)
  }

  function ActiveNames(names: seq<string>, origins: seq<string>, grantedNames: set<string>, grantedOrigins: set<string>): seq<string>
  {
    NamesWithState(names, HeldStates(names, origins, grantedNames, grantedOrigins), true)
  }

  /**
   * The names asked for are exactly the requested names that are not held
   * together with all the origins, and the names left out of the request are
   * exactly those that are.
   */
  lemma InactiveAreNotHeld(names: seq<string>, origins: seq<string>, grantedNames: set<string>, grantedOrigins: set<string>, x: string)
    ensures x in InactiveNames(names, origins, grantedNames, grantedOrigins) <==>
      x in names && !(x in grantedNames && Elements(origins) <= grantedOrigins)
    ensures x in ActiveNames(names, origins, grantedNames, grantedOrigins) <==>
      x in names && x in grantedNames && Elements(origins) <= grantedOrigins
  {
    var states := HeldStates(names, origins, grantedNames, grantedOrigins);
    PartitionMembers(names, states, false, x);
    PartitionMembers(names, states, true, x);
    if x in names {
      var i :| 0 <= i < |names| && names[i] == x;
      assert states[i] == (x in grantedNames && Elements(origins) <= grantedOrigins);
    }
  }

  /** When every name is already held together with every origin, the request asks for no name at all. */
  lemma AllHeldRequestsNothing(names: seq<string>, origins: seq<string>, grantedNames: set<string>, grantedOrigins: set<string>)
    requires Elements(names) <= grantedNames && Elements(origins) <= grantedOrigins
    ensures InactiveNames(names, origins, grantedNames, grantedOrigins) == []
  {
    var asked := InactiveNames(names, origins, grantedNames, grantedOrigins);
    if asked != [] {
      InactiveAreNotHeld(names, origins, grantedNames, grantedOrigins, asked[0]);
      assert false;
    }
  }

  /** What the callback returned, or what it threw. */
  datatype Completion<R> = Returned(value: R) | Threw(error: string)

  /** The manager object; `pms` is null when the browser has no `permissions` API. */
  class PermissionsManager {
    var pms: BrowserPermissions?

    constructor(api: BrowserPermissions?)
      ensures pms == api
    {
      pms := api;
    }

    /** browserHasPermissionsFeature: whether the API object was there at construction. */
    function BrowserHasPermissionsFeature(): (has: bool)
      reads this
      ensures has <==> pms != null
    {
      pms != null
    }

    /**
     * useOptionalPermissions: ask for the names not yet held, run `fn` with
     * the answer, then release the names that were asked for; when `fn`
     * throws, the origins are released as well and the error is passed on.
     * After one `contains` per name, the API sees two state-changing calls:
     * the request for the names not held together with every origin, then
     * the release of those same names.
     */
    method UseOptionalPermissions<R>(permissionNames: seq<string>, origins: seq<string>, userAccepts: bool, fn: bool -> Completion<R>)
      returns (completion: Completion<R>)
      requires pms != null
      modifies pms
      ensures completion == fn(userAccepts)
      ensures pms.names == old(pms.names) - Elements(InactiveNames(permissionNames, origins, old(pms.names), old(pms.origins)))
      ensures completion.Returned? ==> pms.origins == old(pms.origins) + (if userAccepts then Elements(origins) else {})
      ensures completion.Threw? ==> pms.origins == old(pms.origins) - Elements(origins)
      ensures var asked := InactiveNames(permissionNames, origins, old(pms.names), old(pms.origins));
        pms.calls == old(pms.calls) + [RequestCall(asked, origins), RemoveCall(asked, if completion.Returned? then [] else origins)]
    {
      var states := HeldStates(permissionNames, origins, pms.names, pms.origins);
      var active, inactive := PartitionPermissionNames(permissionNames, states);
      var granted := pms.Request(inactive, origins, userAccepts);
      completion := fn(granted);
      if completion.Returned? {
        pms.Remove(inactive, []);
      } else {
        pms.Remove(inactive, origins);
      }
    }
  }

  /**
   * A name that was held, with every origin, before useOptionalPermissions
   * ran stays granted after it, whatever the user answered and however the
   * callback ended. After a callback that returned, the name is still held
   * together with every origin. After a callback that threw, the origins were
   * released, so the name is no longer held together with them when there
   * were any.
   */
  lemma AlreadyHeldIsKept(permissionNames: seq<string>, origins: seq<string>, before: set<string>, beforeOrigins: set<string>,
                          userAccepts: bool, x: string)
    requires x in before && Elements(origins) <= beforeOrigins
    ensures var namesAfter := before - Elements(InactiveNames(permissionNames, origins, before, beforeOrigins));
      && x in namesAfter
      && HoldsAll([x], origins, namesAfter, beforeOrigins + (if userAccepts then Elements(origins) else {}))
      && (origins != [] ==> !HoldsAll([x], origins, namesAfter, beforeOrigins - Elements(origins)))
  {
    InactiveAreNotHeld(permissionNames, origins, before, beforeOrigins, x);
    var namesAfter := before - Elements(InactiveNames(permissionNames, origins, before, beforeOrigins));
    assert Elements([x]) <= namesAfter;
    if origins != [] {
      assert origins[0] in Elements(origins);
    }
  }

  /**
   * A name granted without one of the origins counts as not held, so it is
   * requested and then released: afterwards it is no longer granted at all,
   * even though it was granted before.
   */
  lemma PartlyHeldIsReleased(permissionNames: seq<string>, origins: seq<string>, before: set<string>, beforeOrigins: set<string>,
                             x: string, o: string)
    requires x in permissionNames && x in before
    requires o in origins && o !in beforeOrigins
    ensures x !in before - Elements(InactiveNames(permissionNames, origins, before, beforeOrigins))
  {
    InactiveAreNotHeld(permissionNames, origins, before, beforeOrigins, x);
  }
}
