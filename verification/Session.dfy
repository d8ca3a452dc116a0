/** Tearing a session down, once. */
module Session {
  import opened Protocol
  import opened Accounting
  import opened Requests

  datatype Native = NotifyUnregistered | Aborted | Freed | ProxyDropped

  /** A call into the shim, and whether the registry was closed by then. */
  datatype Effect = Effect(call: Native, registryClosed: bool)

  /** What teardown does, in the order it does it: the registry is closed after
      the first call and before the second. */
  const TEARDOWN: seq<Effect> := [
    Effect(NotifyUnregistered, false), Effect(Native.Aborted, true), Effect(Freed, true), Effect(ProxyDropped, true)]

  class SessionInner {
    var closed: bool
    var effects: seq<Effect>
    const registry: Registry

    constructor (registry: Registry)
      requires registry.Valid() && !registry.locked && !registry.closed
      ensures Valid() && !closed && this.registry == registry
    {
      closed, effects := false, [];
      this.registry := registry;
    }

    /** The native session was torn down completely, or not touched at all. */
    ghost predicate Valid()
      reads this, registry
    {
      && registry.Valid() && !registry.locked
      && effects == (if closed then TEARDOWN else [])
      && closed == registry.closed
    }

    method Call(native: Native)
      modifies this`effects
      ensures effects == old(effects) + [Effect(native, registry.closed)]
    {
      effects := effects + [Effect(native, registry.closed)];
    }

    /** May be called again by `Drop` after an explicit close: the swap makes the
        second call do nothing. */
    method Teardown()
      requires Valid()
      modifies this, registry
      ensures Valid() && closed
      ensures old(closed) ==> effects == old(effects) && registry.world == old(registry.world)
      ensures !old(closed) ==>
        && (forall q :: Pending(old(registry.world).reg, q)
                        ==> q in registry.world.outcome && registry.world.outcome[q] == Closed)
        && registry.handles == old(registry.handles)
        && (forall t :: AddIsOut(old(registry.world), t) && t in old(registry.clientData) ==> t in registry.clientData)
      ensures registry.sessionStats == [] && registry.addTorrent == map[]
    {
      var was := closed;
      closed := true;
      if was {
        ClosedIsEmpty(registry.world);
        return;
      }
      Call(NotifyUnregistered);
      registry.Close();
      Call(Native.Aborted);
      Call(Freed);
      Call(ProxyDropped);
    }
  }
}
