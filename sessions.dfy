/** The chat-capture sessions: a process-wide map from user id to the guild and channel
    where that user is typing role ids, each entry living three minutes. Reads evict an
    expired entry lazily and a periodic sweep drops every expired entry. The FAC and the
    FAC Lite flavours each own one such map. */
module ChatSessions {
  import opened Wrappers

  const SessionTtlMs := 3 * 60 * 1000

  datatype Session = Session(guildId: string, channelId: string, expiresAt: int)

  /** What a read at `now` returns: the stored session while it has not expired. */
  function LiveSession(sessions: map<string, Session>, userId: string, now: int): (r: Option<Session>)
    ensures r.Some? <==> userId in sessions && sessions[userId].expiresAt > now
    ensures r.Some? ==> r.value == sessions[userId]
  {
    if userId in sessions && sessions[userId].expiresAt > now then Some(sessions[userId]) else None
  }

  /** The entries a sweep at `now` keeps. */
  function Unexpired(sessions: map<string, Session>, now: int): (r: map<string, Session>)
    ensures forall u :: u in r <==> u in sessions && sessions[u].expiresAt > now
    ensures forall u :: u in r ==> r[u] == sessions[u]
  {
    map u | u in sessions && sessions[u].expiresAt > now :: sessions[u]
  }

  /** The map after a read at `now`: an expired entry of that user is gone, nothing else changes. */
  function AfterRead(sessions: map<string, Session>, userId: string, now: int): map<string, Session> {
    if userId in sessions && sessions[userId].expiresAt <= now then sessions - {userId} else sessions
  }

  class SessionStore {
    var sessions: map<string, Session>

    constructor()
      ensures sessions == map[]
    {
      sessions := map[];
    }

    /** `start...ChatSession`: bind the user to this guild and channel until `now + 3 min`,
        replacing any earlier session of that user. */
    method Start(userId: string, guildId: string, channelId: string, now: int)
      modifies this
      ensures sessions == old(sessions)[userId := Session(guildId, channelId, now + SessionTtlMs)]
    {
      sessions := sessions[userId := Session(guildId, channelId, now + SessionTtlMs)];
    }

    /** `get...ChatSession`: the live session, deleting the entry when it has expired. */
    method Get(userId: string, now: int) returns (r: Option<Session>)
      modifies this
      ensures r == LiveSession(old(sessions), userId, now)
      ensures sessions == AfterRead(old(sessions), userId, now)
    {
      if userId !in sessions {
        return None;
      }
      var session := sessions[userId];
      if session.expiresAt <= now {
        sessions := sessions - {userId};
        return None;
      }
      return Some(session);
    }

    /** `clear...ChatSession`. */
    method Clear(userId: string)
      modifies this
      ensures sessions == old(sessions) - {userId}
    {
      sessions := sessions - {userId};
    }

    /** The sweep timer's body: walk the entries and delete each one with `expiresAt <= now`. */
    method Sweep(now: int)
      modifies this
      ensures sessions == Unexpired(old(sessions), now)
    {
      var pending := sessions.Keys;
      while pending != {}
        invariant pending <= old(sessions).Keys
        invariant sessions == map u | u in old(sessions) && (u in pending || old(sessions)[u].expiresAt > now) :: old(sessions)[u]
        decreases pending
      {
        var u :| u in pending;
        if sessions[u].expiresAt <= now {
          sessions := sessions - {u};
        }
        pending := pending - {u};
      }
    }
  }

  /** A session read right after it was started is returned until its three minutes are up, and never after. */
  lemma StartedSessionLivesThreeMinutes(sessions: map<string, Session>, userId: string, guildId: string, channelId: string, start: int, now: int)
    requires start <= now
    ensures now < start + SessionTtlMs ==>
      LiveSession(sessions[userId := Session(guildId, channelId, start + SessionTtlMs)], userId, now) == Some(Session(guildId, channelId, start + SessionTtlMs))
    ensures now >= start + SessionTtlMs ==>
      LiveSession(sessions[userId := Session(guildId, channelId, start + SessionTtlMs)], userId, now).None?
  {
  }

  /** Starting a session for one user leaves what every other user reads unchanged. */
  lemma StartIsolatesUsers(sessions: map<string, Session>, userId: string, other: string, s: Session, now: int)
    requires other != userId
    ensures LiveSession(sessions[userId := s], other, now) == LiveSession(sessions, other, now)
  {
  }

  /** Sweeping and lazy eviction never change what a read returns. */
  lemma EvictionPreservesReads(sessions: map<string, Session>, userId: string, reader: string, now: int, later: int)
    requires now <= later
    ensures LiveSession(Unexpired(sessions, now), reader, later) == LiveSession(sessions, reader, later)
    ensures LiveSession(AfterRead(sessions, userId, now), reader, later) == LiveSession(sessions, reader, later)
  {
  }

  /** After a clear the user has no session, whatever was stored before. */
  lemma ClearEndsSession(sessions: map<string, Session>, userId: string, now: int)
    ensures LiveSession(sessions - {userId}, userId, now).None?
  {
  }
}
