/** The announcement loop (libs/rpc/announcement.go): which announced blocks are being fetched, and from whom. */
module Announcements {
  import opened Blocks

  type PeerId = nat

  const MAX_FETCHES := 3

  datatype Announcement = Announcement(newBlockId: Id, peer: PeerId)

  /** The loop's two maps. */
  datatype Fetching = Fetching(peers: map<PeerId, bool>, blockIds: map<Id, int>)

  /** Reading a Go map: the zero value for a missing key. */
  function IsFetching(s: Fetching, peer: PeerId): bool {
    peer in s.peers && s.peers[peer]
  }

  function Fetches(s: Fetching, id: Id): int {
    if id in s.blockIds then s.blockIds[id] else 0
  }

  predicate Starts(s: Fetching, ann: Announcement) {
    !IsFetching(s, ann.peer) && Fetches(s, ann.newBlockId) < MAX_FETCHES
  }

  /** An announcement arrives: it starts a fetch or is skipped. */
  function OnAnnounce(s: Fetching, ann: Announcement): Fetching {
    if Starts(s, ann) then
      Fetching(s.peers[ann.peer := true], s.blockIds[ann.newBlockId := Fetches(s, ann.newBlockId) + 1])
    else s
  }

  /** A fetch has ended. */
  function OnFetchDone(s: Fetching, ann: Announcement): Fetching {
    var n := Fetches(s, ann.newBlockId) - 1;
    Fetching(s.peers - {ann.peer},
             if n > 0 then s.blockIds[ann.newBlockId := n] else s.blockIds - {ann.newBlockId})
  }

  // ---------------------------------------------------------------- runs

  /** A fetch that ends is one of those in flight, in any order. */
  datatype Event = Announced(ann: Announcement) | Done(i: nat)

  /** The maps and, beside them, the fetches in flight. */
  datatype World = World(fetching: Fetching, inFlight: seq<Announcement>)

  function Without<T>(s: seq<T>, i: nat): seq<T>
    requires i < |s|
  {
    s[..i] + s[i + 1..]
  }

  function Next(w: World, e: Event): World {
    match e
    case Announced(ann) =>
      World(OnAnnounce(w.fetching, ann), if Starts(w.fetching, ann) then w.inFlight + [ann] else w.inFlight)
    case Done(i) =>
      if i < |w.inFlight| then World(OnFetchDone(w.fetching, w.inFlight[i]), Without(w.inFlight, i)) else w
  }

  function After(events: seq<Event>): World {
    if events == [] then World(Fetching(map[], map[]), [])
    else Next(After(events[..|events| - 1]), events[|events| - 1])
  }

  /** How many fetches of a block are in flight. */
  function CountOf(inFlight: seq<Announcement>, id: Id): nat {
    if inFlight == [] then 0
    else CountOf(inFlight[..|inFlight| - 1], id) + if inFlight[|inFlight| - 1].newBlockId == id then 1 else 0
  }

  /** One fetch per peer, the peer map is the peers in flight, and each counter is its number of fetches, between 1 and
      3. */
  ghost predicate Exact(w: World) {
    && (forall i, j | 0 <= i < j < |w.inFlight| :: w.inFlight[i].peer != w.inFlight[j].peer)
    && (forall p :: p in w.fetching.peers <==> exists i | 0 <= i < |w.inFlight| :: w.inFlight[i].peer == p)
    && (forall p | p in w.fetching.peers :: w.fetching.peers[p])
    && (forall id :: Counted(w, id))
  }

  ghost predicate Counted(w: World, id: Id) {
    && Fetches(w.fetching, id) == CountOf(w.inFlight, id) <= MAX_FETCHES
    && (id in w.fetching.blockIds <==> CountOf(w.inFlight, id) > 0)
  }

  lemma {:induction false} CountWithout(s: seq<Announcement>, i: nat, id: Id)
    requires i < |s|
    ensures CountOf(Without(s, i), id) == CountOf(s, id) - if s[i].newBlockId == id then 1 else 0
    decreases |s|
  {
    var n := |s| - 1;
    if i == n {
      assert Without(s, i) == s[..n];
    } else {
      CountWithout(s[..n], i, id);
      assert Without(s, i) == Without(s[..n], i) + [s[n]];
    }
  }

  lemma AnnounceKeeps(w: World, ann: Announcement)
    requires Exact(w)
    ensures Exact(Next(w, Announced(ann)))
  {
    var w' := Next(w, Announced(ann));
    if Starts(w.fetching, ann) {
      forall id ensures Counted(w', id) {
        assert Counted(w, id);
        assert w'.inFlight[..|w.inFlight|] == w.inFlight;
      }
      forall p ensures p in w'.fetching.peers <==> exists i | 0 <= i < |w'.inFlight| :: w'.inFlight[i].peer == p {
        assert w'.inFlight[|w.inFlight|] == ann;
        assert forall i | 0 <= i < |w.inFlight| :: w'.inFlight[i] == w.inFlight[i];
      }
    }
  }

  lemma DoneKeeps(w: World, i: nat)
    requires Exact(w) && i < |w.inFlight|
    ensures Exact(Next(w, Done(i)))
  {
    var w' := Next(w, Done(i));
    forall id ensures Counted(w', id) {
      assert Counted(w, id) && Counted(w, w.inFlight[i].newBlockId);
      CountWithout(w.inFlight, i, id);
    }
    PeersWithout(w, i);
  }

  lemma PeersWithout(w: World, i: nat)
    requires Exact(w) && i < |w.inFlight|
    ensures var w' := Next(w, Done(i));
            && (forall j, k | 0 <= j < k < |w'.inFlight| :: w'.inFlight[j].peer != w'.inFlight[k].peer)
            && forall p :: p in w'.fetching.peers <==> exists j | 0 <= j < |w'.inFlight| :: w'.inFlight[j].peer == p
  {
    hide Counted;
    var s, w' := w.inFlight, Next(w, Done(i));
    forall j | 0 <= j < |w'.inFlight| ensures w'.inFlight[j] == s[if j < i then j else j + 1] {
    }
    forall p ensures p in w'.fetching.peers <==> exists j | 0 <= j < |w'.inFlight| :: w'.inFlight[j].peer == p {
      if p in w'.fetching.peers {
        var k :| 0 <= k < |s| && s[k].peer == p;
        assert w'.inFlight[if k < i then k else k - 1].peer == p;
      }
    }
  }

  /** In every run each peer has at most one fetch in flight, the peer map is exactly the peers in flight, and the
      counter of a block is its number of fetches in flight, never 0 when present and never above 3. */
  lemma {:induction false} AlwaysExact(events: seq<Event>)
    ensures Exact(After(events))
  {
    if events != [] {
      var n := |events| - 1;
      AlwaysExact(events[..n]);
      match events[n]
      case Announced(ann) => AnnounceKeeps(After(events[..n]), ann);
      case Done(i) =>
        if i < |After(events[..n]).inFlight| {
          DoneKeeps(After(events[..n]), i);
        }
    }
  }

  /** In every run, an announcement starts a fetch exactly when none from its peer is in flight and fewer than three of
      its block are; the fetches in flight are then those of before and it, and otherwise stay. */
  lemma StartsExactlyWhen(events: seq<Event>, ann: Announcement)
    ensures var before, now := After(events).inFlight, After(events + [Announced(ann)]).inFlight;
            now == if Idle(before, ann.peer) && CountOf(before, ann.newBlockId) < 3 then before + [ann] else before
  {
    hide CountOf, Idle, Exact;
    AlwaysExact(events);
    assert (events + [Announced(ann)])[..|events|] == events;
    StartsIn(After(events), ann);
  }

  /** No fetch from the peer is in flight. */
  ghost predicate Idle(inFlight: seq<Announcement>, peer: PeerId) {
    forall i | 0 <= i < |inFlight| :: inFlight[i].peer != peer
  }

  lemma StartsIn(w: World, ann: Announcement)
    requires Exact(w)
    ensures Starts(w.fetching, ann) <==> Idle(w.inFlight, ann.peer) && CountOf(w.inFlight, ann.newBlockId) < 3
  {
    hide CountOf;
    assert Counted(w, ann.newBlockId);
    assert ann.peer in w.fetching.peers <==> !Idle(w.inFlight, ann.peer);
  }

  // ---------------------------------------------------------------- the loop's state as an object

  class AnnouncementLoop {
    var fetchingPeers: map<PeerId, bool>
    var fetchingBlockIds: map<Id, int>

    ghost function State(): Fetching
      reads this
    {
      Fetching(fetchingPeers, fetchingBlockIds)
    }

    constructor ()
      ensures State() == After([]).fetching
    {
      fetchingPeers, fetchingBlockIds := map[], map[];
    }

    method FetchDone(ann: Announcement)
      modifies this
      ensures State() == OnFetchDone(old(State()), ann)
    {
      fetchingPeers := fetchingPeers - {ann.peer};
      var n := (if ann.newBlockId in fetchingBlockIds then fetchingBlockIds[ann.newBlockId] else 0) - 1;
      if n > 0 {
        fetchingBlockIds := fetchingBlockIds[ann.newBlockId := n];
      } else {
        fetchingBlockIds := fetchingBlockIds - {ann.newBlockId};
      }
    }

    method Announce(ann: Announcement) returns (started: bool)
      modifies this
      ensures State() == OnAnnounce(old(State()), ann) && started == Starts(old(State()), ann)
    {
      var f := ann.peer in fetchingPeers && fetchingPeers[ann.peer];
      var n := if ann.newBlockId in fetchingBlockIds then fetchingBlockIds[ann.newBlockId] else 0;
      if !f && n < MAX_FETCHES {
        fetchingPeers := fetchingPeers[ann.peer := true];
        fetchingBlockIds := fetchingBlockIds[ann.newBlockId := n + 1];
        return true;
      }
      return false;
    }
  }
}
