// The AniDB client's persisted session: one UDP session reused across runs and
// restarts, and a recorded ban that silences new logins until it lapses. Each
// load-then-save of the state file is one step; crashes fall between steps.

module AnidbSession {
  import opened Wrappers

  const BAN_COOLDOWN := 24 * 3600

  /** The keyed fingerprint of a username and password under the hub secret, taken to
      be injective; `Unbound` is the empty string of older or cleared files. */
  datatype Credential = Unbound | Fingerprint(secret: nat, user: string, pass: string)

  /** The state file. An empty session and port 0 mean none is stored. */
  datatype State = State(session: string, port: nat, credential: Credential, bannedUntil: int)

  const DEFAULT := State("", 0, Unbound, 0)

  function ResumablePort(st: State, credential: Credential): Option<nat> {
    if st.session != "" && st.port != 0 && st.credential == credential then Some(st.port) else None
  }

  function BanRemaining(st: State, now: int): Option<int> {
    if st.bannedUntil - now > 0 then Some(st.bannedUntil - now) else None
  }

  function Forgotten(st: State): State {
    if st.session == "" then st else State("", 0, Unbound, st.bannedUntil)
  }

  function Lost(st: State): State {
    st.(session := "")
  }

  function Banned(st: State, now: int): State {
    State("", st.port, Unbound, now + BAN_COOLDOWN)
  }

  function Established(session: string, port: nat, credential: Credential): State {
    State(session, port, credential, 0)
  }

  // ------------------------------------------------------------- what is sent

  /** The reply to one packet, after the retry of `command`. */
  datatype Reply = Reply(code: nat, key: string) | NoReply

  datatype Packet =
    | EncryptPacket
    | UptimePacket(session: string, credential: Credential, port: nat)
    | AuthPacket(credential: Credential, port: nat)

  const BANNED_CODE := 555

  predicate Accepts(r: Reply) {
    r.Reply? && (r.code == 200 || r.code == 201) && r.key != ""
  }

  predicate SaysBanned(r: Reply) {
    r.Reply? && r.code == BANNED_CODE
  }

  // ------------------------------------------------------- the client's methods

  datatype Outcome = Refused | Failed | NowBanned | Resumed(session: string) | Authenticated(session: string)

  /** One login as the replies will have it: the file it starts from, who logs in, whether
      an API key asks for encryption, the port the socket got, the time, the answers. */
  datatype Attempt = Attempt(file: State, credential: Credential, encrypt: bool, bound: nat, now: int,
                             encryptReply: Reply, uptimeReply: Reply, authReply: Reply)
  {
    predicate Gated() { file.bannedUntil > now }

    /** The channel is up: plain, or granted by 209. */
    predicate Opened() { !encrypt || Says(encryptReply, 209) }

    predicate Probes() {
      file.session != "" && file.port == bound && bound != 0 && file.credential == credential
    }

    /** The probe settles the login. */
    predicate Settled() { Probes() && (Says(uptimeReply, 208) || Says(uptimeReply, 555)) }

    function Opening(): seq<Packet> { if encrypt then [EncryptPacket] else [] }

    function Probing(): seq<Packet> { if Probes() then [UptimePacket(file.session, credential, bound)] else [] }
  }

  predicate Says(r: Reply, code: nat) {
    r.Reply? && r.code == code
  }

  /** The replies decide the outcome and every packet: nothing while a ban is recorded; a
      channel that does not open ends the login, and so does a probe answered 208 or 555;
      otherwise AUTH is sent and its answer decides. */
  predicate LoginDecided(a: Attempt, outcome: Outcome, sent: seq<Packet>) {
    && (a.Gated() ==> outcome == Refused && sent == [])
    && (!a.Gated() && !a.Opened() ==>
          && sent == [EncryptPacket]
          && outcome == if Says(a.encryptReply, 555) then NowBanned else Failed)
    && (!a.Gated() && a.Opened() && a.Settled() ==>
          && sent == a.Opening() + a.Probing()
          && outcome == if Says(a.uptimeReply, 208) then Resumed(a.file.session) else NowBanned)
    && (!a.Gated() && a.Opened() && !a.Settled() ==>
          && sent == a.Opening() + a.Probing() + [AuthPacket(a.credential, a.bound)]
          && var granted := (Says(a.authReply, 200) || Says(a.authReply, 201)) && a.authReply.key != "";
             outcome == if granted then Authenticated(a.authReply.key)
                        else if Says(a.authReply, 555) then NowBanned else Failed)
  }

  /** The file changes only by recording a day's ban or by a successful AUTH. */
  predicate FileDecided(file: State, credential: Credential, bound: nat, now: int, outcome: Outcome, left: State) {
    left == match outcome
            case NowBanned => State("", file.port, Unbound, now + 86_400)
            case Authenticated(session) => State(session, bound, credential, 0)
            case _ => file
  }

  class StateFile {
    var st: State

    constructor (st: State)
      ensures this.st == st
    {
      this.st := st;
    }

    method ForgetSession()
      modifies this
      ensures st == Forgotten(old(st)) && st.bannedUntil == old(st).bannedUntil && st.session == ""
      ensures old(st).session != "" ==> st.port == 0 && st.credential == Unbound
      ensures old(st).session == "" ==> st == old(st)
    {
      if st.session == "" {
        return;
      }
      st := State("", 0, Unbound, st.bannedUntil);
    }

    method RecordBan(now: int)
      modifies this
      ensures st == Banned(old(st), now) && st == State("", old(st).port, Unbound, now + 86_400)
    {
      var port := st.port;
      st := State("", port, Unbound, now + BAN_COOLDOWN);
    }

    /** A lookup answered 501 or 506: the session is gone, the ban clock is not. */
    method LoseSession()
      modifies this
      ensures st == Lost(old(st)) && st == State("", old(st).port, old(st).credential, old(st).bannedUntil)
    {
      st := st.(session := "");
    }

    /** One login, start to finish, on its own. `bound` is the port the socket got,
        `encrypt` whether an API key is configured. `sent` lists the packets. */
    method Login(credential: Credential, encrypt: bool, bound: nat, now: int,
                 encryptReply: Reply, uptimeReply: Reply, authReply: Reply)
      returns (outcome: Outcome, sent: seq<Packet>)
      modifies this
      ensures LoginDecided(Attempt(old(st), credential, encrypt, bound, now, encryptReply, uptimeReply, authReply), outcome, sent)
      ensures FileDecided(old(st), credential, bound, now, outcome, st)
    {
      sent := [];
      if st.bannedUntil - now > 0 {
        return Refused, sent;
      }
      var resume := ResumablePort(st, credential);
      var resumePort := if resume.Some? then resume.value else 0;
      if encrypt {
        sent := sent + [EncryptPacket];
        if SaysBanned(encryptReply) {
          RecordBan(now);
          return NowBanned, sent;
        }
        if encryptReply.NoReply? || encryptReply.code != 209 {
          return Failed, sent;
        }
      }
      if resumePort != 0 && resumePort == bound {
        sent := sent + [UptimePacket(st.session, credential, bound)];
        if uptimeReply.Reply? && uptimeReply.code == 208 {
          return Resumed(st.session), sent;
        }
        if SaysBanned(uptimeReply) {
          RecordBan(now);
          return NowBanned, sent;
        }
      }
      sent := sent + [AuthPacket(credential, bound)];
      if Accepts(authReply) {
        st := State(authReply.key, bound, credential, 0);
        return Authenticated(authReply.key), sent;
      }
      if SaysBanned(authReply) {
        RecordBan(now);
        return NowBanned, sent;
      }
      return Failed, sent;
    }
  }
}
