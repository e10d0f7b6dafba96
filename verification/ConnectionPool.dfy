/** The MCP connection pool: sessions kept per namespace and server, evicted when stale. */
module ConnectionPool {
  const DEFAULT_TTL_SECONDS := 300

  datatype Key = Key(namespaceId: nat, serverName: string)

  /** How a call ends: with a session, or with an exception. */
  datatype Connected = Session(id: nat) | Unsupported | ConnectFailed

  /** A connection and the exit stack that closes it. */
  class Connection {
    const key: Key
    const session: nat
    var lastUsedAt: int
    var closed: bool

    constructor (key: Key, session: nat, now: int)
      ensures this.key == key && this.session == session && lastUsedAt == now && !closed
    {
      this.key, this.session, lastUsedAt, closed := key, session, now, false;
    }

    /** `stack.__aexit__`; closing twice does no harm. */
    method Exit()
      modifies this`closed
      ensures closed
    {
      closed := true;
    }
  }

  predicate Supported(transport: string) {
    transport == "sse" || transport == "streamable_http" || transport == "stdio"
  }

  class Pool {
    var pool: map<Key, Connection>

    /** Every connection ever opened. */
    ghost var dialed: set<Connection>

    ghost predicate Pooled(c: Connection)
      reads this
    {
      c.key in pool && pool[c.key] == c
    }

    /** Every connection ever opened is in the pool under its own key or closed, never both. */
    ghost predicate Valid()
      reads this, dialed
    {
      && (forall k <- pool :: pool[k] in dialed && pool[k].key == k)
      && (forall c <- dialed :: Pooled(c) <==> !c.closed)
    }

    constructor ()
      ensures Valid() && pool == map[] && dialed == {}
    {
      pool, dialed := map[], {};
    }

    /** `_evict`: an exception while closing is swallowed. */
    method Drop(key: Key)
      requires Valid()
      modifies this`pool, dialed
      ensures Valid() && pool == old(pool) - {key}
      ensures forall c <- dialed :: c.lastUsedAt == old(c.lastUsedAt) && (c.closed <==> old(c.closed) || c.key == key)
    {
      if key in pool {
        var conn := pool[key];
        pool := pool - {key};
        conn.Exit();
      }
    }

    /** A session for the key: the pooled one when it was used less than `ttl` ago, else a new one.
        `dialled` and `session` are the network's answer to connecting. */
    method GetOrConnect(key: Key, transport: string, now: int, dialled: bool, session: nat,
                        ttl: int := DEFAULT_TTL_SECONDS)
      returns (r: Connected)
      requires Valid()
      modifies this, dialed
      ensures Valid() && old(dialed) <= dialed && fresh(dialed - old(dialed))
      ensures old(key in pool && now - pool[key].lastUsedAt < ttl) ==>
                && r == Session(old(pool[key].session)) && pool == old(pool) && dialed == old(dialed)
                && pool[key].lastUsedAt == now
      ensures !old(key in pool && now - pool[key].lastUsedAt < ttl) ==>
                && (r.Unsupported? <==> !Supported(transport))
                && (r.ConnectFailed? <==> Supported(transport) && !dialled)
                && (r.Session? ==>
                      && r.id == session && key in pool && pool[key] !in old(dialed)
                      && pool[key].session == session && pool[key].lastUsedAt == now
                      && pool == old(pool)[key := pool[key]])
                && (!r.Session? ==> pool == old(pool) - {key})
    {
      if key in pool {
        var conn := pool[key];
        if now - conn.lastUsedAt < ttl {
          conn.lastUsedAt := now;
          return Session(conn.session);
        }
        Drop(key);
      }
      var conn := new Connection(key, session, now);
      if !Supported(transport) {
        conn.Exit();
        dialed := dialed + {conn};
        return Unsupported;
      }
      if !dialled {
        conn.Exit();
        dialed := dialed + {conn};
        return ConnectFailed;
      }
      dialed := dialed + {conn};
      pool := pool[key := conn];
      return Session(session);
    }

    method Evict(namespaceId: nat, serverName: string)
      requires Valid()
      modifies this`pool, dialed
      ensures Valid() && pool == old(pool) - {Key(namespaceId, serverName)}
    {
      Drop(Key(namespaceId, serverName));
    }

    /** Evicts the given keys one after the other. */
    method DropAll(keys: set<Key>)
      requires Valid()
      modifies this`pool, dialed
      ensures Valid() && pool == old(pool) - keys
    {
      var todo := keys;
      while todo != {}
        invariant todo <= keys && Valid() && pool == old(pool) - (keys - todo)
        decreases todo
      {
        var key :| key in todo;
        Drop(key);
        todo := todo - {key};
        assert old(pool) - (keys - todo) == old(pool) - (keys - todo - {key}) - {key};
      }
      assert keys - {} == keys;
    }

    /** Removes exactly the namespace's keys. */
    method EvictNamespace(namespaceId: nat)
      requires Valid()
      modifies this`pool, dialed
      ensures Valid() && pool == map k | k in old(pool) && k.namespaceId != namespaceId :: old(pool)[k]
    {
      DropAll(set k | k in pool && k.namespaceId == namespaceId);
    }

    /** Leaves nothing pooled and nothing open. */
    method CloseAll()
      requires Valid()
      modifies this`pool, dialed
      ensures Valid() && pool == map[] && forall c <- dialed :: c.closed
    {
      DropAll(pool.Keys);
    }
  }
}
