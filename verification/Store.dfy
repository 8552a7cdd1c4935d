/** The durable store of services and relationships. A failed write is reported but the
    change stays in memory. */
module Store {
  import opened Wrappers
  import opened MeshModel
  import opened Disk

  datatype LoadError = Unreadable | NotJson

  /** What New makes of the file. */
  function Loaded(file: Content<State>): Result<State, LoadError> {
    match file
    case Missing => Ok(NO_STATE)
    case Blank => Ok(NO_STATE)
    case Malformed => Err(NotJson)
    case Holds(st) => Ok(st)
  }

  class Store {
    const path: string
    const volume: Volume<State>
    var data: State

    constructor (path: string, volume: Volume<State>, loaded: State)
      ensures this.path == path && this.volume == volume && data == loaded
    {
      this.path, this.volume, data := path, volume, loaded;
    }

    /** Snapshot: fresh maps with the same entries. */
    method Snapshot() returns (out: State)
      ensures out == data
    {
      var services: map<string, Service> := map[];
      var rest := data.services.Keys;
      while rest != {}
        invariant rest <= data.services.Keys
        invariant services.Keys == data.services.Keys - rest
        invariant forall k :: k in services ==> services[k] == data.services[k]
        decreases rest
      {
        var k :| k in rest;
        services := services[k := data.services[k]];
        rest := rest - {k};
      }
      assert services == data.services;
      var relationships: map<string, Relationship> := map[];
      rest := data.relationships.Keys;
      while rest != {}
        invariant rest <= data.relationships.Keys
        invariant relationships.Keys == data.relationships.Keys - rest
        invariant forall k :: k in relationships ==> relationships[k] == data.relationships[k]
        decreases rest
      {
        var k :| k in rest;
        relationships := relationships[k := data.relationships[k]];
        rest := rest - {k};
      }
      assert relationships == data.relationships;
      out := State(services, relationships);
    }

    method Service(id: string) returns (r: Option<MeshModel.Service>)
      ensures r == if id in data.services then Some(data.services[id]) else None
    {
      return if id in data.services then Some(data.services[id]) else None;
    }

    method PutService(v: MeshModel.Service, fault: Fault<State>) returns (ok: bool)
      modifies this`data, volume
      ensures data == WithService(old(data), v) == State(old(data).services[v.id := v], old(data).relationships)
      ensures ok == (path == "" || fault.NoFault?)
      ensures volume.State() == if path == "" then old(volume.State()) else AfterPersist(old(volume.State()), data, fault)
    {
      data := data.(services := data.services[v.id := v]);
      ok := PersistLocked(fault);
    }

    method PutRelationship(v: Relationship, fault: Fault<State>) returns (ok: bool)
      modifies this`data, volume
      ensures data == WithRelationship(old(data), v) == State(old(data).services, old(data).relationships[v.id := v])
      ensures ok == (path == "" || fault.NoFault?)
      ensures volume.State() == if path == "" then old(volume.State()) else AfterPersist(old(volume.State()), data, fault)
    {
      data := data.(relationships := data.relationships[v.id := v]);
      ok := PersistLocked(fault);
    }

    method PersistLocked(fault: Fault<State>) returns (ok: bool)
      modifies volume
      ensures ok == (path == "" || fault.NoFault?)
      ensures volume.State() == if path == "" then old(volume.State()) else AfterPersist(old(volume.State()), data, fault)
    {
      if path == "" {
        return true;
      }
      ok := volume.Persist(data, fault);
    }
  }
}
