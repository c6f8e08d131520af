/**
 extnet_accept_connection and extnet_close_client with the ownership paths of
 the TLS handler: who closes the descriptor and who frees the handle.
 */
module Network {
  import opened Basics
  import opened SessionTable
  import opened Protocol
  import opened World

  /** What accept and the TLS library answer for one incoming connection. */
  datatype AcceptOutcome = AcceptOutcome(
    fd: int,            // what accept returned, negative on failure
    handle: nat,        // what SSL_new returned, 0 for NULL
    setFdOk: bool,      // SSL_set_fd
    timeoutOk: bool,    // setsockopt
    negotiated: bool)   // SSL_accept

  /** Accept returns no descriptor that is still open, SSL_new no handle that is still live. */
  predicate Fresh(open: set<int>, handles: set<nat>, o: AcceptOutcome) {
    o.fd !in open && o.handle !in handles
  }

  /** The answer of the surroundings: one that reuses live resources cannot happen and counts as a failed accept. */
  function Answer(open: set<int>, handles: set<nat>, o: AcceptOutcome): (r: AcceptOutcome)
    ensures Fresh(open, handles, r) || r.fd < 0
    ensures Fresh(open, handles, o) ==> r == o
  {
    if Fresh(open, handles, o) then o else o.(fd := -1)
  }

  /** Whether a connection comes about. */
  predicate Accepts(tls: bool, o: AcceptOutcome) {
    o.fd >= 0 && (tls ==> o.handle != 0 && o.setFdOk && o.timeoutOk && o.negotiated)
  }

  /** The record of a new connection. */
  function Granted(tls: bool, o: AcceptOutcome): Conn {
    Conn(o.fd, if tls then o.handle else 0)
  }

  /** Giving up the resources of a record: first the handle, if there is one, then the descriptor. */
  function CloseEvents(c: Conn): seq<Event> {
    (if c.handle != 0 then [HandleFreed(c.handle)] else []) + [Closed(c.sockfd)]
  }

  /** What one accept makes visible; what does not become a connection is given up again. */
  function AcceptEvents(tls: bool, o: AcceptOutcome): seq<Event> {
    if o.fd < 0 then []
    else
      [Accepted(o.fd)] + (if tls && o.handle != 0 then [HandleNew(o.handle)] else []) +
      if Accepts(tls, o) then [] else CloseEvents(Granted(tls, o))
  }

  /** A connection record whose resources the caller owns. */
  predicate Owned(m: Monitor, c: Conn) {
    c.sockfd >= 0 && c.sockfd in m.open && ConnHandles(c) <= m.handles
  }

  predicate MayClose(m: Monitor, fd: int) {
    m.busy.None? && (m.auth == Some(fd) && !m.stopping ==> !m.attempted)
  }

  /** The monitor after the resources of a record have been given up. */
  function Released(m: Monitor, c: Conn): Monitor {
    m.(open := m.open - {c.sockfd}, handles := m.handles - ConnHandles(c),
       auth := if m.auth == Some(c.sockfd) then None else m.auth)
  }

  lemma AddedAndRemoved<T>(s: set<T>, x: T)
    requires x !in s
    ensures s + {x} - {x} == s
  {
  }

  /** exttls_on_close_client: the handle is freed at most once. */
  method OnCloseClient(env: Environment, conn: Conn) returns (after: Conn)
    requires env.Valid() && ConnHandles(conn) <= env.monitor.handles
    modifies env
    ensures env.Valid() && after == conn.(handle := 0)
    ensures env.monitor == old(env.monitor).(handles := old(env.monitor.handles) - ConnHandles(conn))
    ensures env.log == old(env.log) + if conn.handle != 0 then [HandleFreed(conn.handle)] else []
  {
    after := conn;
    if conn.handle != 0 {
      env.Emit(HandleFreed(conn.handle));
      after := conn.(handle := 0);
    }
  }

  /** extnet_close_client: an already closed record is left alone. */
  method CloseClient(env: Environment, conn: Conn, closeOk: bool) returns (after: Conn, ok: bool)
    requires env.Valid() && (conn.sockfd >= 0 ==> Owned(env.monitor, conn) && MayClose(env.monitor, conn.sockfd))
    modifies env
    ensures env.Valid()
    ensures if conn.sockfd < 0 then env.monitor == old(env.monitor) && after == conn && !ok
      else env.monitor == Released(old(env.monitor), conn) && after == CLOSED && ok == closeOk
    ensures env.log == old(env.log) + if conn.sockfd < 0 then [] else CloseEvents(conn)
  {
    after := conn;
    if conn.sockfd < 0 {
      ok := false;
    } else {
      after := OnCloseClient(env, conn);
      env.Emit(Closed(after.sockfd));
      ok := closeOk;
      after := CLOSED;
    }
  }

  /** exttls_on_accept: on a failed negotiation it frees the handle and closes the descriptor itself. */
  method OnAcceptTls(env: Environment, conn: Conn, o: AcceptOutcome) returns (after: Conn, ok: bool)
    requires env.Valid() && conn.sockfd == o.fd >= 0 && o.fd in env.monitor.open && o.handle !in env.monitor.handles
    requires env.monitor.auth != Some(o.fd) && env.monitor.busy.None?
    modifies env
    ensures env.Valid()
    ensures ok <==> o.handle != 0 && o.setFdOk && o.timeoutOk && o.negotiated
    ensures if o.handle != 0 && o.setFdOk && o.timeoutOk && !o.negotiated then
        after == CLOSED && env.monitor == old(env.monitor).(open := old(env.monitor.open) - {o.fd})
      else
        after == Conn(o.fd, o.handle) &&
        env.monitor == old(env.monitor).(handles := old(env.monitor.handles) + ConnHandles(after))
    ensures env.log == old(env.log) + (if o.handle != 0 then [HandleNew(o.handle)] else []) +
      if after == CLOSED then CloseEvents(Conn(o.fd, o.handle)) else []
  {
    after := conn.(handle := o.handle);
    ok := true;
    if o.handle == 0 {
      ok := false;
    } else {
      env.Emit(HandleNew(o.handle));
    }
    if ok && !o.setFdOk {
      ok := false;
    }
    if ok {
      if !o.timeoutOk {
        ok := false;
      } else if !o.negotiated {
        env.Emit(HandleFreed(after.handle));
        after := after.(handle := 0);
        var closed: bool;
        after, closed := CloseClient(env, after, true);
        ok := false;
        AddedAndRemoved(old(env.monitor.handles), o.handle);
      }
    }
  }

  /**
   extnet_accept_connection. On success the caller owns the new record; on
   failure nothing is left open, whichever function did the closing.
   */
  method AcceptConnection(env: Environment, tls: bool, o: AcceptOutcome) returns (conn: Conn, ok: bool)
    requires env.Valid() && (o.fd < 0 || Fresh(env.monitor.open, env.monitor.handles, o))
    requires env.monitor.busy.None? && (o.fd < 0 || env.monitor.auth != Some(o.fd))
    modifies env
    ensures env.Valid()
    ensures ok <==> Accepts(tls, o)
    ensures ok ==> conn == Granted(tls, o)
    ensures env.log == old(env.log) + AcceptEvents(tls, o)
    ensures env.monitor == if !ok then old(env.monitor) else old(env.monitor).(
      open := old(env.monitor.open) + {conn.sockfd}, handles := old(env.monitor.handles) + ConnHandles(conn))
  {
    ghost var m := env.monitor;
    conn := Conn(o.fd, 0);
    if conn.sockfd < 0 {
      ok := false;
    } else {
      env.Emit(Accepted(o.fd));
      ok := true;
      if tls {
        conn, ok := OnAcceptTls(env, conn, o);
      }
      if !ok {
        var closed: bool;
        conn, closed := CloseClient(env, conn, true);
        AddedAndRemoved(m.open, o.fd);
        AddedAndRemoved(m.handles, o.handle);
      } else {
        assert m.handles + {} == m.handles;
      }
    }
  }
}
