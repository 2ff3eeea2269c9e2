/** The relay client's connection and session fields, with one method for each critical section of
    the state lock, and the functions that say what each does. */
module RelayLink {
  import opened Options

  /** Sessions are told apart by identity; each is bound to the connection epoch it was created in. */
  datatype Session = Session(id: nat, epoch: nat)

  datatype Outcome = Done | NotConnected | NoActiveSession | Stale

  /** `session` decrypts what comes in; `active` may encrypt what goes out. */
  datatype Link = Link(conn: Option<nat>, epoch: nat, session: Option<Session>, active: Option<Session>) {

    function Detach(): Link {
      Link(None, epoch + 1, None, None)
    }

    function Attach(c: nat): Link {
      Link(Some(c), epoch + 1, None, None)
    }

    /** Whether the current connection is the one the session was made for. */
    function Check(s: Session): Outcome {
      if epoch != s.epoch then Stale else if conn == None then NotConnected else Done
    }

    function Install(s: Session): Link {
      if Check(s) == Done then this.(session := Some(s), active := None) else this
    }

    function Clear(s: Session): Link {
      this.(session := if session == Some(s) then None else session,
            active := if active == Some(s) then None else active)
    }

    /** The last section of sending a session-ack, which went out on `c`. */
    function Activate(s: Session, c: nat): Link {
      if epoch != s.epoch || conn != Some(c) then Clear(s)
      else if session != Some(s) then this
      else this.(active := Some(s))
    }

    function End(e: nat): Link {
      if epoch == e then this.(session := None, active := None) else this
    }

    /** Whether a reply encrypted under `s` may be written. */
    function CheckReply(s: Session): Outcome {
      if Check(s) != Done then Check(s)
      else if active == None then NoActiveSession
      else if active != Some(s) then Stale
      else Done
    }

    /** Whether what was read before building a message is still so. */
    function Recheck(e: nat, c: nat, s: Session): Outcome {
      if epoch != e then Stale
      else if conn == None then NotConnected
      else if conn != Some(c) then Stale
      else if active == None then NoActiveSession
      else if active != Some(s) then Stale
      else Done
    }
  }

  class Client {
    const machineID: string
    var conn: Option<nat>
    var connEpoch: nat
    var session: Option<Session>
    var activeSession: Option<Session>

    constructor (machineID: string)
      ensures View() == Link(None, 0, None, None)
      ensures this.machineID == machineID
    {
      this.machineID := machineID;
      conn, connEpoch, session, activeSession := None, 0, None, None;
    }

    ghost function View(): Link
      reads this
    {
      Link(conn, connEpoch, session, activeSession)
    }

    method DetachActiveConnection() returns (oldConn: Option<nat>)
      modifies this
      ensures View() == old(View()).Detach()
      ensures oldConn == old(conn)
      ensures conn == None && session == None && activeSession == None && connEpoch == old(connEpoch) + 1
    {
      oldConn := conn;
      conn := None;
      session := None;
      activeSession := None;
      connEpoch := connEpoch + 1;
    }

    method PublishActiveConnection(c: nat) returns (epoch: nat)
      modifies this
      ensures View() == old(View()).Attach(c)
      ensures epoch == connEpoch == old(connEpoch) + 1
      ensures conn == Some(c) && session == None && activeSession == None
    {
      connEpoch := connEpoch + 1;
      conn := Some(c);
      session := None;
      activeSession := None;
      return connEpoch;
    }

    method InstallSession(s: Option<Session>) returns (r: Outcome)
      modifies this
      ensures s == None ==> r == NoActiveSession && View() == old(View())
      ensures s.Some? ==> r == old(View()).Check(s.value) && View() == old(View()).Install(s.value)
      ensures r == Done <==> s.Some? && connEpoch == s.value.epoch && conn.Some?
      ensures r == Stale <==> s.Some? && connEpoch != s.value.epoch
      ensures r == Done ==> session == s && activeSession == None
      ensures r != Done ==> session == old(session) && activeSession == old(activeSession)
      ensures conn == old(conn) && connEpoch == old(connEpoch)
    {
      if s == None {
        return NoActiveSession;
      }
      if connEpoch != s.value.epoch {
        return Stale;
      }
      if conn == None {
        return NotConnected;
      }
      session := s;
      activeSession := None;
      return Done;
    }

    /** The state read at the start of sending an ack. */
    method ReadForAck(s: Session) returns (r: Outcome, c: Option<nat>)
      ensures r == View().Check(s)
      ensures r == Done <==> connEpoch == s.epoch && conn.Some?
      ensures r == Stale <==> connEpoch != s.epoch
      ensures r == Done ==> c == conn
    {
      if connEpoch != s.epoch {
        return Stale, None;
      }
      if conn == None {
        return NotConnected, None;
      }
      return Done, conn;
    }

    /** After a failed ack write. */
    method ClearSession(s: Session)
      modifies this
      ensures View() == old(View()).Clear(s)
      ensures session != Some(s) && activeSession != Some(s)
      ensures old(session) != Some(s) ==> session == old(session)
      ensures old(activeSession) != Some(s) ==> activeSession == old(activeSession)
      ensures conn == old(conn) && connEpoch == old(connEpoch)
    {
      if session == Some(s) {
        session := None;
      }
      if activeSession == Some(s) {
        activeSession := None;
      }
    }

    method ActivateAfterAck(s: Session, c: nat) returns (r: Outcome)
      modifies this
      ensures View() == old(View()).Activate(s, c)
      ensures r == if old(View()).Check(s) == Done && conn == Some(c) && old(session) == Some(s) then Done else Stale
      ensures r == Done ==> activeSession == session == Some(s)
      ensures conn == old(conn) && connEpoch == old(connEpoch)
      ensures r == Done <==> connEpoch == s.epoch && conn == Some(c) && old(session) == Some(s)
      ensures connEpoch != s.epoch || conn != Some(c) ==> session != Some(s) && activeSession != Some(s)
      ensures connEpoch == s.epoch && conn == Some(c) && old(session) != Some(s) ==>
                session == old(session) && activeSession == old(activeSession)
    {
      if connEpoch != s.epoch {
        ClearSession(s);
        return Stale;
      }
      if conn != Some(c) {
        ClearSession(s);
        return Stale;
      }
      if session != Some(s) {
        return Stale;
      }
      activeSession := Some(s);
      return Done;
    }

    method ReadForReply(s: Session) returns (r: Outcome, c: Option<nat>)
      ensures r == View().CheckReply(s)
      ensures r == Done <==> connEpoch == s.epoch && conn.Some? && activeSession == Some(s)
      ensures r == NotConnected <==> connEpoch == s.epoch && conn == None
      ensures r == NoActiveSession <==> connEpoch == s.epoch && conn.Some? && activeSession == None
      ensures r == Done ==> c == conn
    {
      if connEpoch != s.epoch {
        return Stale, None;
      }
      if conn == None {
        return NotConnected, None;
      }
      if activeSession == None {
        return NoActiveSession, None;
      }
      if activeSession != Some(s) {
        return Stale, None;
      }
      return Done, conn;
    }

    method RecheckBeforeWrite(e: nat, c: nat, s: Session) returns (r: Outcome)
      ensures r == View().Recheck(e, c, s)
      ensures r == Done <==> connEpoch == e && conn == Some(c) && activeSession == Some(s)
      ensures r == NotConnected <==> connEpoch == e && conn == None
      ensures r == NoActiveSession <==> connEpoch == e && conn == Some(c) && activeSession == None
    {
      if connEpoch != e {
        return Stale;
      }
      if conn == None {
        return NotConnected;
      }
      if conn != Some(c) {
        return Stale;
      }
      if activeSession == None {
        return NoActiveSession;
      }
      if activeSession != Some(s) {
        return Stale;
      }
      return Done;
    }

    method HandleSessionEnd(e: nat, msgMachineID: string)
      modifies this
      ensures View() == if msgMachineID != "" && msgMachineID == machineID then old(View()).End(e) else old(View())
      ensures msgMachineID != "" && msgMachineID == machineID && connEpoch == e ==>
                session == None && activeSession == None
      ensures msgMachineID == "" || msgMachineID != machineID || connEpoch != e ==>
                session == old(session) && activeSession == old(activeSession)
      ensures conn == old(conn) && connEpoch == old(connEpoch)
    {
      if msgMachineID == "" || msgMachineID != machineID {
        return;
      }
      if connEpoch != e {
        return;
      }
      session := None;
      activeSession := None;
    }
  }
}
