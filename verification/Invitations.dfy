/**
 * Accepting invitations: a peer shows the code of an invitation, its file is read and deleted, and a node is
 * added under the name in the file. The inviter adds the node before or after sending the file to the peer.
 */
module Invitations {
  import opened Wrappers

  type Cookie = nat
  type Name = nat

  /** An invitation file: the name and submesh in it, when it was written, and whether it can be decrypted. */
  datatype Invitation = Invitation(name: Name, submesh: Option<nat>, written: nat, intact: bool)

  /** A connection of a peer: the name and submesh are those of the invitation it used. */
  datatype Peer = Peer(open: bool, used: bool, name: Option<Name>, submesh: Option<nat>)

  datatype Node = Node(key: nat, submesh: Option<nat>)

  /** A record of a peer: its type and length, the code it starts with and the key it carries. */
  datatype Record = Record(kind: nat, len: nat, code: nat, key: nat)

  /** What the surroundings do while a record is handled: the clock, and which operations on files succeed. */
  datatype Env = Env(now: nat, renames: bool, fileOpens: bool, unlinks: bool, syncs: bool, submeshKnown: bool,
      configWritten: bool)

  datatype Event =
    | Issue(cookie: Cookie, invitation: Invitation)
    | Connect(peer: nat)
    | Receive(peer: nat, rec: Record, env: Env)

  /** A node that was added, and the invitation it was added for. */
  datatype Added = Added(cookie: Cookie, name: Name)

  const CODE_LEN := 18
  const KEY_LEN := 32
  const HANDSHAKE := 128

  ghost function IssuedName(issued: map<Cookie, Invitation>, k: Cookie): Name {
    if k in issued then issued[k].name else 0
  }

  /** Files are issued invitations, and none that was taken is among them; none was taken twice. */
  ghost predicate FilesOk(files: map<Cookie, Invitation>, issued: map<Cookie, Invitation>, taken: seq<Cookie>) {
    && (forall k :: k in files ==> k in issued && files[k] == issued[k])
    && (forall i :: 0 <= i < |taken| ==> taken[i] in issued && taken[i] !in files)
    && (forall i, j :: 0 <= i < j < |taken| ==> taken[i] != taken[j])
  }

  /** A peer that used an invitation has taken it itself, and has its name. */
  ghost predicate PeersOk(peers: map<nat, Peer>, origin: map<nat, Cookie>, issued: map<Cookie, Invitation>,
      taken: seq<Cookie>) {
    && (forall p :: p in peers && peers[p].used ==> p in origin && peers[p].name == Some(IssuedName(issued, origin[p])))
    && (forall p :: p in origin ==> p in peers && peers[p].used && origin[p] in taken)
    && (forall p, q :: p in origin && q in origin && p != q ==> origin[p] != origin[q])
  }

  /**
   * Every node that was added is known, under the name of an invitation that was taken, and no other was added for it.
   */
  ghost predicate AddedOk(added: seq<Added>, nodes: map<Name, Node>, issued: map<Cookie, Invitation>,
      taken: seq<Cookie>) {
    && (forall i :: 0 <= i < |added| ==>
          added[i].cookie in taken && added[i].name == IssuedName(issued, added[i].cookie) && added[i].name in nodes)
    && (forall i, j :: 0 <= i < j < |added| ==> added[i].cookie != added[j].cookie && added[i].name != added[j].name)
  }

  /** Every invitation that was taken could be decrypted, and was taken before it was outdated. */
  ghost predicate InTime(taken: seq<Cookie>, times: seq<nat>, issued: map<Cookie, Invitation>, timeout: nat) {
    && |times| == |taken|
    && forall i :: 0 <= i < |taken| ==>
         && taken[i] in issued && issued[taken[i]].intact && times[i] < issued[taken[i]].written + timeout
  }

  class Inviter {
    const commitsFirst: bool
    const timeout: nat
    const hash: nat -> Cookie
    var files: map<Cookie, Invitation>
    var peers: map<nat, Peer>
    var nodes: map<Name, Node>
    var issued: map<Cookie, Invitation>
    ghost var taken: seq<Cookie>
    ghost var times: seq<nat>
    ghost var origin: map<nat, Cookie>
    ghost var added: seq<Added>

    constructor (commitsFirst: bool, timeout: nat, hash: nat -> Cookie, nodes: map<Name, Node>)
      ensures Valid() && files == map[] && taken == [] && added == [] && this.nodes == nodes
    {
      this.commitsFirst, this.timeout, this.hash, this.nodes := commitsFirst, timeout, hash, nodes;
      files, peers, issued, taken, times, origin, added := map[], map[], map[], [], [], map[], [];
    }

    ghost predicate Valid()
      reads this
    {
      && FilesOk(files, issued, taken) && PeersOk(peers, origin, issued, taken) && AddedOk(added, nodes, issued, taken)
      && InTime(taken, times, issued, timeout)
    }

    method Issue(cookie: Cookie, invitation: Invitation)
      requires Valid() && cookie !in issued
      modifies this
      ensures Valid() && files == old(files)[cookie := invitation] && taken == old(taken) && added == old(added)
              && nodes == old(nodes)
      ensures issued == old(issued)[cookie := invitation] && peers == old(peers)
    {
      files := files[cookie := invitation];
      issued := issued[cookie := invitation];
    }

    method Connect(p: nat)
      requires Valid() && p !in peers
      modifies this`peers
      ensures Valid() && peers == old(peers)[p := Peer(true, false, None, None)]
    {
      peers := peers[p := Peer(true, false, None, None)];
    }

    /** invitation_read: once the file could be renamed it is gone, whatever comes of it. */
    method ReadInvitation(cookie: Cookie, env: Env) returns (invitation: Option<Invitation>)
      requires Valid()
      modifies this`files, this`taken, this`times
      ensures Valid() && files == if env.renames then old(files) - {cookie} else old(files)
      ensures invitation == if Usable(old(files), cookie, env, timeout) then Some(old(files)[cookie]) else None
      ensures taken == if invitation.Some? then old(taken) + [cookie] else old(taken)
      ensures times == if invitation.Some? then old(times) + [env.now] else old(times)
      ensures invitation.Some? ==> cookie !in old(taken) && cookie in issued && invitation.value == issued[cookie]
    {
      if cookie !in files || !env.renames {
        assert files - {cookie} == files || !env.renames;
        return None;
      }
      var file := files[cookie];
      files := files - {cookie};
      if !env.fileOpens || env.now >= file.written + timeout || !file.intact { return None; }
      if !env.unlinks || !env.syncs { return None; }
      taken, times := taken + [cookie], times + [env.now];
      invitation := Some(file);
    }

    /** commit_invitation: add the node, unless its name is known. */
    method Commit(p: nat, key: nat, env: Env, ghost cookie: Cookie) returns (ok: bool)
      requires AddedOk(added, nodes, issued, taken) && p in peers && peers[p].name == Some(IssuedName(issued, cookie))
               && cookie in taken
      modifies this`nodes, this`added
      ensures AddedOk(added, nodes, issued, taken)
      ensures var name := peers[p].name.value;
              && ok == (name !in old(nodes) && env.configWritten)
              && nodes == (if ok then old(nodes)[name := Node(key, peers[p].submesh)] else old(nodes))
              && added == (if ok then old(added) + [Added(cookie, name)] else old(added))
    {
      var name := peers[p].name.value;
      if name in nodes { return false; }
      if !env.configWritten { return false; }
      nodes := nodes[name := Node(key, peers[p].submesh)];
      added := added + [Added(cookie, name)];
      ok := true;
    }

    /** Read the file for a code, and take the name and the submesh from it. */
    method TakeName(p: nat, code: nat, env: Env) returns (ok: bool)
      requires Valid() && p in peers && !peers[p].used
      modifies this`files, this`taken, this`times, this`peers
      ensures Valid() && peers.Keys == old(peers).Keys && !peers[p].used && PeersOk(peers, origin, issued, old(taken))
      ensures forall q :: q in old(peers) && q != p ==> peers[q] == old(peers)[q]
      ensures files == Left(old(files), hash(code), env)
      ensures if Usable(old(files), hash(code), env, timeout)
              then hash(code) !in old(taken) && taken == old(taken) + [hash(code)] else taken == old(taken)
      ensures ok == (Usable(old(files), hash(code), env, timeout)
              && (old(files)[hash(code)].submesh.None? || env.submeshKnown))
      ensures ok ==>
                var i := old(files)[hash(code)];
                && IssuedName(issued, hash(code)) == i.name
                && peers[p] == old(peers[p]).(name := Some(i.name), submesh := i.submesh)
    {
      var cookie := hash(code);
      var invitation := ReadInvitation(cookie, env);
      if invitation.None? { return false; }
      var named := peers[p].(name := Some(invitation.value.name));
      ok := invitation.value.submesh.None? || env.submeshKnown;
      if ok { named := named.(submesh := invitation.value.submesh); }
      PeerRenamed(peers, origin, issued, old(taken), p, named);
      PeerRenamed(peers, origin, issued, taken, p, named);
      peers := peers[p := named];
    }

    /** The peer has used its invitation. */
    method MarkUsed(p: nat, ghost cookie: Cookie, ghost before: seq<Cookie>)
      requires PeersOk(peers, origin, issued, before) && p in peers && !peers[p].used && cookie !in before
      requires peers[p].name == Some(IssuedName(issued, cookie)) && taken == before + [cookie]
      modifies this`peers, this`origin
      ensures PeersOk(peers, origin, issued, taken) && peers == old(peers)[p := old(peers)[p].(used := true)]
    {
      PeerTakes(peers, origin, issued, before, p, cookie);
      origin := origin[p := cookie];
      peers := peers[p := peers[p].(used := true)];
    }

    /** The rest of process_invitation, once the name is known. */
    method Finish(p: nat, key: nat, env: Env, ghost cookie: Cookie, ghost before: seq<Cookie>) returns (ok: bool)
      requires Valid() && p in peers && !peers[p].used && PeersOk(peers, origin, issued, before)
      requires peers[p].name == Some(IssuedName(issued, cookie)) && taken == before + [cookie] && cookie !in before
      modifies this`nodes, this`added, this`peers, this`origin
      ensures Valid() && ok == (commitsFirst ==> old(peers[p].name.value) !in old(nodes) && env.configWritten)
      ensures peers == if ok then old(peers)[p := old(peers)[p].(used := true)] else old(peers)
      ensures var name := old(peers[p].name.value);
              if ok && commitsFirst
              then nodes == old(nodes)[name := Node(key, old(peers[p]).submesh)]
                   && added == old(added) + [Added(cookie, name)]
              else nodes == old(nodes) && added == old(added)
    {
      ok := true;
      assert (before + [cookie])[|before|] == cookie;
      if commitsFirst {
        ok := Commit(p, key, env, cookie);
        if !ok { return; }
      }
      MarkUsed(p, cookie, before);
    }

    /** process_invitation: use the invitation whose code is in the record. */
    method Process(p: nat, rec: Record, env: Env) returns (ok: bool)
      requires Valid() && p in peers && !peers[p].used
      modifies this
      ensures Valid() && issued == old(issued) && peers.Keys == old(peers).Keys
              && forall q :: q in old(peers) && q != p ==> peers[q] == old(peers)[q]
      ensures files == Left(old(files), hash(rec.code), env)
      ensures taken == if Usable(old(files), hash(rec.code), env, timeout) then old(taken) + [hash(rec.code)]
                       else old(taken)
      ensures ok == Welcome(old(files), old(nodes), hash(rec.code), env)
      ensures ok ==>
                var i := old(files)[hash(rec.code)];
                peers[p] == Peer(old(peers[p]).open, true, Some(i.name), i.submesh)
      ensures if ok && commitsFirst then var i := old(files)[hash(rec.code)];
                nodes == old(nodes)[i.name := Node(rec.key, i.submesh)]
                    && added == old(added) + [Added(hash(rec.code), i.name)]
              else nodes == old(nodes) && added == old(added)
    {
      ghost var before, cookie := taken, hash(rec.code);
      ok := TakeName(p, rec.code, env);
      if ok { ok := Finish(p, rec.key, env, cookie, before); }
    }

    /** Whether the invitation can be used: its file, its submesh, and the node itself if that is added at once. */
    ghost predicate Welcome(files: map<Cookie, Invitation>, nodes: map<Name, Node>, cookie: Cookie, env: Env) {
      && Usable(files, cookie, env, timeout) && (files[cookie].submesh.None? || env.submeshKnown)
      && (commitsFirst ==> files[cookie].name !in nodes && env.configWritten)
    }

    /** The record presents a code; the peer has not used one yet. */
    predicate Presents(x: Peer, rec: Record) {
      !x.used && if commitsFirst then rec.kind == 2 && rec.len == CODE_LEN + KEY_LEN
                 else rec.kind == 0 && rec.len == CODE_LEN
    }

    /** The record carries the key of a peer that has used its code. */
    predicate Commits(x: Peer, rec: Record) { x.used && !commitsFirst && rec.kind == 1 && rec.len == KEY_LEN }

    /** What a record that was accepted does to the nodes and to the peer; one that was refused adds no node. */
    ghost predicate Enrolled(files: map<Cookie, Invitation>, before: map<Name, Node>, x: Peer, rec: Record, ok: bool,
        after: map<Name, Node>, y: Peer) {
      if !ok || rec.kind == HANDSHAKE then after == before && (y == x || !ok)
      else if x.used then x.name.Some? && after == before[x.name.value := Node(rec.key, x.submesh)] && y == x
      else
        && hash(rec.code) in files
        && var i := files[hash(rec.code)];
           && y == Peer(x.open, true, Some(i.name), i.submesh)
           && after == if commitsFirst then before[i.name := Node(rec.key, i.submesh)] else before
    }

    /** receive_invitation_sptps. */
    method Dispatch(p: nat, rec: Record, env: Env) returns (ok: bool)
      requires Valid() && p in peers
      modifies this
      ensures Valid() && issued == old(issued) && peers.Keys == old(peers).Keys
      ensures old(taken) <= taken && old(added) <= added && |added| <= |old(added)| + 1
      ensures forall q :: q in old(peers) && q != p ==> peers[q] == old(peers)[q]
      ensures if Presents(old(peers[p]), rec)
              then && ok == Welcome(old(files), old(nodes), hash(rec.code), env)
                   && files == Left(old(files), hash(rec.code), env)
              else files == old(files) && taken == old(taken) && peers == old(peers)
      ensures if Commits(old(peers[p]), rec)
              then && old(peers[p]).name.Some?
                   && ok == (old(peers[p]).name.value !in old(nodes) && env.configWritten)
              else !Presents(old(peers[p]), rec) ==>
                     ok == (rec.kind == HANDSHAKE) && nodes == old(nodes) && added == old(added)
      ensures |added| == |old(added)|
              + if ok && (Commits(old(peers[p]), rec) || (Presents(old(peers[p]), rec) && commitsFirst)) then 1 else 0
      ensures Enrolled(old(files), old(nodes), old(peers[p]), rec, ok, nodes, peers[p])
      ensures rec.kind > 2 ==> ok == (rec.kind == 128) && nodes == old(nodes) && files == old(files)
    {
      if rec.kind == HANDSHAKE { return true; }
      ok := false;
      if commitsFirst {
        if rec.kind == 2 && rec.len == CODE_LEN + KEY_LEN && !peers[p].used { ok := Process(p, rec, env); }
      } else {
        if rec.kind == 0 && rec.len == CODE_LEN && !peers[p].used {
          ok := Process(p, rec, env);
        } else if rec.kind == 1 && rec.len == KEY_LEN && peers[p].used {
          ok := Commit(p, rec.key, env, origin[p]);
        }
      }
    }

    /** A record on an open connection, which is closed when the record is refused. */
    method Receive(p: nat, rec: Record, env: Env) returns (ok: bool)
      requires Valid() && p in peers && peers[p].open
      modifies this
      ensures Valid() && issued == old(issued) && peers.Keys == old(peers).Keys
      ensures old(taken) <= taken && old(added) <= added && |added| <= |old(added)| + 1
      ensures forall q :: q in old(peers) && q != p ==> peers[q] == old(peers)[q]
      ensures !ok ==> !peers[p].open
      ensures Enrolled(old(files), old(nodes), old(peers[p]), rec, ok, nodes, peers[p])
      ensures Presents(old(peers[p]), rec) ==> ok == Welcome(old(files), old(nodes), hash(rec.code), env)
      ensures Commits(old(peers[p]), rec) ==>
                old(peers[p]).name.Some? && ok == (old(peers[p]).name.value !in old(nodes) && env.configWritten)
    {
      ok := Dispatch(p, rec, env);
      if !ok {
        PeerCloses(peers, origin, issued, taken, p);
        peers := peers[p := peers[p].(open := false)];
      }
    }
  }

  lemma PeerCloses(peers: map<nat, Peer>, origin: map<nat, Cookie>, issued: map<Cookie, Invitation>,
      taken: seq<Cookie>, p: nat)
    requires PeersOk(peers, origin, issued, taken) && p in peers
    ensures PeersOk(peers[p := peers[p].(open := false)], origin, issued, taken)
  {
  }

  lemma PeerRenamed(peers: map<nat, Peer>, origin: map<nat, Cookie>, issued: map<Cookie, Invitation>,
      taken: seq<Cookie>, p: nat, x: Peer)
    requires PeersOk(peers, origin, issued, taken) && p in peers && !peers[p].used && !x.used
    ensures PeersOk(peers[p := x], origin, issued, taken)
  {
  }

  /**
   * Any interleaving of connections: no invitation is taken twice, none after it is outdated or if it cannot be
   * decrypted, and at most one node is added for each that was taken, under the name in its file.
   */
  method Run(m: Inviter, events: seq<Event>)
    requires m.Valid()
    modifies m
    ensures m.Valid() && old(m.taken) <= m.taken && old(m.added) <= m.added
    ensures forall i, j :: 0 <= i < j < |m.taken| ==> m.taken[i] != m.taken[j]
    ensures InTime(m.taken, m.times, m.issued, m.timeout)
    ensures forall i :: 0 <= i < |m.added| ==>
              && m.added[i].cookie in m.taken && m.added[i].cookie in m.issued
              && m.added[i].name == m.issued[m.added[i].cookie].name
              && m.added[i].name in m.nodes
    ensures forall i, j :: 0 <= i < j < |m.added| ==> m.added[i].cookie != m.added[j].cookie
  {
    for n := 0 to |events|
      invariant m.Valid() && old(m.taken) <= m.taken && old(m.added) <= m.added
    {
      match events[n]
      case Issue(cookie, invitation) => if cookie !in m.issued { m.Issue(cookie, invitation); }
      case Connect(p) => if p !in m.peers { m.Connect(p); }
      case Receive(p, rec, env) => if p in m.peers && m.peers[p].open { var ok := m.Receive(p, rec, env); }
    }
  }

  /** The invitation is there, intact and not outdated, and everything about its file works. */
  ghost predicate Good(m: Inviter, cookie: Cookie, env: Env)
    reads m
  {
    && cookie in m.files && m.files[cookie].intact && env.now < m.files[cookie].written + m.timeout
    && env.renames && env.fileOpens && env.unlinks && env.syncs
    && (m.files[cookie].submesh.Some? ==> env.submeshKnown)
  }

  /**
   * A peer that joins: it connects and sends the records that a joining node sends, code and key in one record of type
   * 2 or one after the other in records of types 0 and 1. It becomes a node exactly if its invitation is good, nobody
   * has its name, and the configuration can be written.
   */
  method Join(m: Inviter, p: nat, code: nat, key: nat, env: Env, later: Env) returns (ok: bool)
    requires m.Valid() && p !in m.peers
    modifies m
    ensures m.Valid()
    ensures ok == (old(Good(m, m.hash(code), env)) && old(m.files[m.hash(code)].name) !in old(m.nodes)
                   && (if m.commitsFirst then env else later).configWritten)
    ensures ok ==>
              var i := old(m.files)[m.hash(code)]; m.nodes == old(m.nodes)[i.name := Node(key, i.submesh)]
    ensures !ok ==> m.nodes == old(m.nodes) && p in m.peers && !m.peers[p].open
  {
    m.Connect(p);
    if m.commitsFirst {
      ok := m.Receive(p, Record(2, 18 + 32, code, key), env);
    } else {
      ok := m.Receive(p, Record(0, 18, code, 0), env);
      if ok { ok := m.Receive(p, Record(1, 32, 0, key), later); }
    }
  }

  /** A peer that has the name of an invitation taken just now may use it. */
  lemma PeerTakes(peers: map<nat, Peer>, origin: map<nat, Cookie>, issued: map<Cookie, Invitation>, taken: seq<Cookie>,
      p: nat, cookie: Cookie)
    requires PeersOk(peers, origin, issued, taken) && p in peers && !peers[p].used && cookie !in taken
    requires peers[p].name == Some(IssuedName(issued, cookie))
    ensures PeersOk(peers[p := peers[p].(used := true)], origin[p := cookie], issued, taken + [cookie])
  {
    assert (taken + [cookie])[|taken|] == cookie;
  }

  /** The files after an attempt to use one: it is gone unless it could not be renamed. */
  function Left(files: map<Cookie, Invitation>, cookie: Cookie, env: Env): map<Cookie, Invitation> {
    if env.renames then files - {cookie} else files
  }

  /** The file is there, can be renamed, opened and removed, is not outdated and can be decrypted. */
  predicate Usable(files: map<Cookie, Invitation>, cookie: Cookie, env: Env, timeout: nat) {
    && cookie in files && env.renames && env.fileOpens && env.now < files[cookie].written + timeout
        && files[cookie].intact
    && env.unlinks && env.syncs
  }
}
