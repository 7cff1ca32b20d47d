/**
 * `DespawnSystem`: an entity that has fallen wholly below the world is
 * deleted, running its despawn callback first if it still has one.
 */
module Despawn {
  import opened Wrappers
  import opened Components

  /** What processing one entity decides: its component afterwards, the callback run, and the deletion. */
  datatype Outcome = Outcome(despawnable: Despawnable, callback: Option<CallbackHandle>, delete: bool)

  /** Below the world: the top edge is under `y = 0`. */
  predicate BelowWorld(p: Position, size: Size) {
    p.current.y < -size.height
  }

  /** `process`: run and clear the callback, then delete, when the entity is below the world. */
  function ProcessOne(p: Position, size: Size, d: Despawnable): (r: Outcome)
    ensures r.delete <==> BelowWorld(p, size)
    ensures !r.delete ==> r == Outcome(d, None, false)
    ensures r.delete ==> r.callback == d.onDespawn && r.despawnable.onDespawn.None?
  {
    if BelowWorld(p, size) then Outcome(Despawnable(None), d.onDespawn, true)
    else Outcome(d, None, false)
  }

  /**
   * The callback runs at most once: the ECS applies deletions after the
   * system, so an entity processed again before that finds it cleared.
   */
  lemma CallbackRunsAtMostOnce(p: Position, size: Size, d: Despawnable)
    ensures ProcessOne(p, size, ProcessOne(p, size, d).despawnable).callback.None?
  {
  }

  /** The result of processing one id against the store. */
  datatype DespawnStep = DespawnStep(world: World, callbacks: seq<CallbackHandle>)

  /** The system over the store: only entities with a `Despawnable` are processed. */
  function Process(w: World, id: EntityId): (r: DespawnStep)
    ensures r.world.previousVelocity == w.previousVelocity
    ensures id in w.entities && w.entities[id].despawnable.Some?
            && BelowWorld(w.entities[id].position, w.entities[id].size) ==>
              && r.world.entities == w.entities - {id}
              && (w.entities[id].despawnable.value.onDespawn.Some? ==>
                    r.callbacks == [w.entities[id].despawnable.value.onDespawn.value])
              && (w.entities[id].despawnable.value.onDespawn.None? ==> r.callbacks == [])
    ensures (id !in w.entities || w.entities[id].despawnable.None?
             || !BelowWorld(w.entities[id].position, w.entities[id].size)) ==> r == DespawnStep(w, [])
  {
    if id !in w.entities || w.entities[id].despawnable.None? then DespawnStep(w, [])
    else
      var e := w.entities[id];
      var o := ProcessOne(e.position, e.size, e.despawnable.value);
      if !o.delete then DespawnStep(w, [])
      else DespawnStep(Delete(w, id), if o.callback.Some? then [o.callback.value] else [])
  }

  /** An entity still inside or above the world is never despawned. */
  lemma AboveFloorKept(w: World, id: EntityId)
    requires id in w.entities && w.entities[id].position.current.y >= -w.entities[id].size.height
    ensures id in Process(w, id).world.entities
    ensures Process(w, id).callbacks == []
  {
  }
}
