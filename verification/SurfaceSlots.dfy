/**
 The surface object of src/render/isz_surface.c over the engine, its two buffer slots updated in place,
 and the buffer objects of the client's connection.
 */
module SurfaceSlots {
  import opened Options
  import opened Retirement
  import opened RetirementRuns
  import opened RetirementEngine
  import opened Surfaces

  lemma DropSlotIs(s: State, b: BufferId)
    ensures DropSlot(s, Some(b)) == DropRef(s, b)
  {
  }

  lemma ClientDestroyIs(c: Scene, b: BufferId)
    requires b in c.registered
    ensures NextScene(c, ClientDestroys(b)) ==
            c.(protocol := DropSlot(c.protocol, Some(b)), registered := c.registered - {b})
  {
  }

  lemma AttachIs(c: Scene, b: BufferId, client: bool)
    ensures NextScene(c, Attach(b, client)) ==
            Scene(DropSlot(ImportBuffer(c.protocol, b), c.replaced), Some(b), c.current,
                  if client then c.registered + {b} else c.registered)
  {
  }

  lemma DestroyIs(c: Scene)
    ensures NextScene(c, Destroy) ==
            c.(protocol := DropSlot(DropSlot(c.protocol, c.current), c.replaced), current := None, replaced := None)
  {
  }

  lemma AfterImport(c: Scene, b: BufferId)
    requires SceneInv(c) && b !in c.protocol.buffers
    ensures c.replaced.Some? ==> c.replaced.value in ImportBuffer(c.protocol, b).buffers
  {
    if c.replaced.Some? {
      HeldIsAllocated(c.protocol, c.replaced.value);
    }
  }

  lemma AfterDrop(c: Scene)
    requires SceneInv(c)
    ensures c.current.Some? ==> c.current.value in c.protocol.buffers
    ensures c.replaced.Some? ==> c.replaced.value in DropSlot(c.protocol, c.current).buffers
  {
    DropSlotKeeps(c.protocol, c.current, c.replaced);
    if c.current.Some? {
      HeldIsAllocated(c.protocol, c.current.value);
    }
    if c.replaced.Some? {
      HeldIsAllocated(DropSlot(c.protocol, c.current), c.replaced.value);
    }
  }

  class Surface {
    const engine: Engine
    var current: Option<BufferId>
    var replaced: Option<BufferId>
    /** The buffers that the connection's object table has. */
    var registered: set<BufferId>

    ghost function View(): Scene
      reads this, engine, engine.links
    {
      Scene(engine.View(), current, replaced, registered)
    }

    constructor (engine: Engine)
      ensures this.engine == engine && current == None && replaced == None && registered == {}
    {
      this.engine := engine;
      current, replaced, registered := None, None, {};
    }

    /** isz_buffer_release and isz_buffer_unref, if the slot holds a buffer. */
    method DropBuffer(slot: Option<BufferId>)
      requires engine.Valid() && !engine.links.broken && (slot.Some? ==> slot.value in engine.buffers)
      modifies engine, engine.links, engine.links.flightHead, engine.links.pendingHead, engine.links.all
      ensures engine.Valid() && !engine.links.broken && engine.links.all <= old(engine.links.all)
      ensures engine.View() == DropSlot(old(engine.View()), slot)
    {
      if slot.Some? {
        DropSlotIs(engine.View(), slot.value);
        engine.ReleaseAndDrop(slot.value);
      }
    }

    method DropFrom(slot: Option<BufferId>)
      requires engine.Valid() && !engine.links.broken && (slot.Some? ==> slot.value in engine.buffers)
      modifies engine, engine.links, engine.links.flightHead, engine.links.pendingHead, engine.links.all
      ensures engine.Valid() && !engine.links.broken && engine.links.all <= old(engine.links.all)
      ensures View() == old(View()).(protocol := DropSlot(old(View()).protocol, slot))
    {
      DropBuffer(slot);
    }

    /** `imported` is the import's answer; a failed one changes nothing. A client's attach registers the buffer. */
    method AttachBuffer(b: BufferId, imported: bool, client: bool)
      requires engine.Valid() && SceneInv(View()) && b !in engine.buffers
      modifies this, engine, engine.links, engine.links.flightHead, engine.links.pendingHead, engine.links.all
      ensures engine.Valid() && View() == if imported then NextScene(old(View()), Attach(b, client)) else old(View())
    {
      if !imported {
        return;
      }
      AfterImport(View(), b);
      AttachIs(View(), b, client);
      ImportAndDrop(b, replaced);
      Swap(b, client);
    }

    /** The two slots, and the connection's table. */
    method Swap(b: BufferId, client: bool)
      modifies this
      ensures View() == old(View()).(current := Some(b), replaced := old(current),
                                     registered := if client then old(registered) + {b} else old(registered))
    {
      replaced := current;
      current := Some(b);
      if client {
        registered := registered + {b};
      }
    }

    /** The import, and the release of the buffer that was replaced before. */
    method ImportAndDrop(b: BufferId, slot: Option<BufferId>)
      requires engine.Valid() && !engine.links.broken && b !in engine.buffers
      requires slot.Some? ==> slot.value in ImportBuffer(engine.View(), b).buffers
      modifies engine, engine.links, engine.links.flightHead, engine.links.pendingHead, engine.links.all
      ensures engine.Valid()
      ensures View() == old(View()).(protocol := DropSlot(ImportBuffer(old(View()).protocol, b), slot))
    {
      engine.ImportNew(b);
      assert View() == old(View()).(protocol := ImportBuffer(old(View()).protocol, b));
      DropFrom(slot);
    }

    method DetachBuffer()
      requires engine.Valid() && SceneInv(View())
      modifies this, engine, engine.links, engine.links.flightHead, engine.links.pendingHead, engine.links.all
      ensures engine.Valid() && View() == NextScene(old(View()), Detach)
    {
      AfterDrop(View());
      DropBuffer(current);
      current := None;
    }

    method Forget()
      modifies this
      ensures View() == old(View()).(current := None, replaced := None)
    {
      current, replaced := None, None;
    }

    method DestroySurface()
      requires engine.Valid() && SceneInv(View())
      modifies this, engine, engine.links, engine.links.flightHead, engine.links.pendingHead, engine.links.all
      ensures engine.Valid() && View() == NextScene(old(View()), Destroy)
    {
      AfterDrop(View());
      DestroyIs(View());
      DropFrom(current);
      DropFrom(replaced);
      Forget();
    }

    method Unregister(b: BufferId)
      modifies this`registered
      ensures View() == old(View()).(registered := old(registered) - {b})
    {
      registered := registered - {b};
    }

    /**
     isz_handle_buffer_destroy: the object goes, and with it a reference that the connection never took.
     A buffer that is freed already is the one case that cannot be carried out.
     */
    method BufferDestroy(b: BufferId)
      requires engine.Valid() && !engine.links.broken && (b in registered ==> b in engine.buffers)
      modifies this`registered
      modifies engine, engine.links, engine.links.flightHead, engine.links.pendingHead, engine.links.all
      ensures engine.Valid() && View() == NextScene(old(View()), ClientDestroys(b))
    {
      if b !in registered {
        return;
      }
      ClientDestroyIs(View(), b);
      DropFrom(Some(b));
      Unregister(b);
    }

    /** A commit of the output that shows this surface. */
    method CommitSurface(answer: CommitRequest) returns (code: Code)
      requires engine.Valid() && SceneInv(View())
      modifies engine, engine.links, engine.links.flightHead, engine.links.pendingHead, engine.links.all
      ensures engine.Valid() && View() == NextScene(old(View()), Show(answer))
      ensures code == CommitCode(old(engine.View()), answer)
    {
      var r := answer.(replaced := if current.Some? then replaced else None);
      if r.replaced.Some? {
        HeldIsAllocated(engine.View(), r.replaced.value);
      }
      if current.Some? {
        HeldIsAllocated(engine.View(), current.value);
      }
      code := engine.CommitBackend(r);
    }
  }
}
