/** Replaying rows one virtual server after another is replaying them all. */
module Replay {
  import opened Options
  import opened Sessions
  import opened SessionInv
  import opened SessionRestart

  /** The rows of one virtual server, in order. */
  function OfServer(data: seq<RowKey>, vid: int): seq<RowKey>
    decreases |data|
  {
    if data == [] then []
    else
      var key := data[|data| - 1];
      OfServer(data[..|data| - 1], vid) + if key.vid == vid then [key] else []
  }

  lemma OfServerNone(vid: int)
    ensures forall data: seq<RowKey> :: OfServer(data[..0], vid) == []
  {
  }

  lemma {:induction false} OfServerIn(data: seq<RowKey>, vid: int, key: RowKey)
    ensures key in OfServer(data, vid) <==> key in data && key.vid == vid
    decreases |data|
  {
    if data != [] {
      OfServerIn(data[..|data| - 1], vid, key);
      assert data == data[..|data| - 1] + [data[|data| - 1]];
    }
  }

  lemma OfServerSnoc(data: seq<RowKey>, i: nat, vid: int)
    requires i < |data| && NoRepeats(data)
    ensures OfServer(data[..i + 1], vid) == if data[i].vid == vid then OfServer(data[..i], vid) + [data[i]]
            else OfServer(data[..i], vid)
    ensures data[i] !in OfServer(data[..i], vid)
  {
    assert data[..i + 1][..i] == data[..i] && data[..i + 1][i] == data[i];
    OfServerIn(data[..i], vid, data[i]);
  }

  /** The world after replaying rows in an order, whatever the outside did meanwhile. */
  ghost predicate Replayed(cfg: Config, w: World, w1: World, rows: map<RowKey, Row>, order: seq<RowKey>) {
    exists envs: RowKey -> Env :: w1 == Restore(cfg, w, rows, order, envs)
  }

  lemma ReplayedNone(cfg: Config, w: World, rows: map<RowKey, Row>)
    ensures Replayed(cfg, w, w, rows, [])
  {
    var envs := (key: RowKey) => Env(0, [], None);
    assert w == Restore(cfg, w, rows, [], envs);
  }

  lemma ReplayedOne(cfg: Config, w: World, rows: map<RowKey, Row>, key: RowKey, env: Env)
    requires key in rows
    ensures Replayed(cfg, w, StartSess(cfg, w, SidAt(cfg, key.vid, key.ip), RestoreReq(key, rows[key]), env),
                     rows, [key])
  {
    hide StartSess, SidAt;
    var envs := (k: RowKey) => env;
    var w1 := StartSess(cfg, w, SidAt(cfg, key.vid, key.ip), RestoreReq(key, rows[key]), env);
    assert Restore(cfg, w, rows, [key], envs) == Restore(cfg, w1, rows, [key][1..], envs) && envs(key) == env;
    assert Restore(cfg, w1, rows, [], envs) == w1;
  }

  lemma {:induction false} RestoreSplit(cfg: Config, w: World, rows: map<RowKey, Row>, a: seq<RowKey>, b: seq<RowKey>,
      envs: RowKey -> Env)
    ensures Restore(cfg, w, rows, a + b, envs) == Restore(cfg, Restore(cfg, w, rows, a, envs), rows, b, envs)
    decreases |a|
  {
    hide StartSess, SidAt;
    if a == [] {
      assert a + b == b;
    } else {
      var key := a[0];
      var s := SidAt(cfg, key.vid, key.ip);
      var w1 := if key in rows then StartSess(cfg, w, s, RestoreReq(key, rows[key]), envs(key)) else w;
      assert (a + b)[0] == key && (a + b)[1..] == a[1..] + b;
      RestoreSplit(cfg, w1, rows, a[1..], b, envs);
    }
  }

  lemma {:induction false} RestoreSame(cfg: Config, w: World, rows: map<RowKey, Row>, order: seq<RowKey>,
      f: RowKey -> Env, g: RowKey -> Env)
    requires forall key :: key in order ==> f(key) == g(key)
    ensures Restore(cfg, w, rows, order, f) == Restore(cfg, w, rows, order, g)
    decreases |order|
  {
    hide StartSess, SidAt;
    if order != [] {
      var key := order[0];
      assert key in order && forall k :: k in order[1..] ==> k in order;
      var s := SidAt(cfg, key.vid, key.ip);
      var w1 := if key in rows then StartSess(cfg, w, s, RestoreReq(key, rows[key]), f(key)) else w;
      RestoreSame(cfg, w1, rows, order[1..], f, g);
    }
  }

  lemma ReplayedMore(cfg: Config, w: World, w1: World, w2: World, rows: map<RowKey, Row>, a: seq<RowKey>,
      b: seq<RowKey>)
    requires Replayed(cfg, w, w1, rows, a) && Replayed(cfg, w1, w2, rows, b)
    requires forall key :: key in a ==> key !in b
    ensures Replayed(cfg, w, w2, rows, a + b)
  {
    hide Restore;
    var f :| w1 == Restore(cfg, w, rows, a, f);
    var g :| w2 == Restore(cfg, w1, rows, b, g);
    var both := (key: RowKey) => if key in a then f(key) else g(key);
    RestoreSame(cfg, w, rows, a, f, both);
    RestoreSame(cfg, w1, rows, b, g, both);
    RestoreSplit(cfg, w, rows, a, b, both);
  }

  /** data lists the rows of one virtual server, each once. */
  ghost predicate Selected(db: map<RowKey, Row>, vid: int, data: seq<RowKey>) {
    NoRepeats(data) && forall key :: key in data <==> key in db && key.vid == vid
  }

  lemma NoneRepeats()
    ensures NoRepeats([])
  {
  }

  lemma SelectedParts(db: map<RowKey, Row>, vid: int, data: seq<RowKey>)
    requires Selected(db, vid, data)
    ensures NoRepeats(data) && (forall key :: key in data <==> key in db && key.vid == vid)
    ensures OfServer(data, vid) == data
  {
    hide NoRepeats;
    OfServerAll(data, vid);
  }

  lemma {:induction false} OfServerAll(data: seq<RowKey>, vid: int)
    requires forall key :: key in data ==> key.vid == vid
    ensures OfServer(data, vid) == data
    decreases |data|
  {
    if data != [] {
      OfServerAll(data[..|data| - 1], vid);
      assert data[|data| - 1] in data && data == data[..|data| - 1] + [data[|data| - 1]];
    }
  }

  lemma OrderGrows(db: map<RowKey, Row>, order: seq<RowKey>, vids: seq<int>, i: nat, data: seq<RowKey>)
    requires i < |vids| && forall a, b :: 0 <= a < b < |vids| ==> vids[a] != vids[b]
    requires NoRepeats(order) && NoRepeats(data)
    requires forall key :: key in order <==> key in db && key.vid in vids[..i]
    requires forall key :: key in data <==> key in db && key.vid == vids[i]
    ensures NoRepeats(order + data)
    ensures forall key :: key in order + data <==> key in db && key.vid in vids[..i + 1]
    ensures forall key :: key in order ==> key !in data
  {
    assert vids[..i + 1] == vids[..i] + [vids[i]];
    var all := order + data;
    forall a, b | 0 <= a < b < |all|
      ensures all[a] != all[b]
    {
      if a < |order| <= b {
        assert all[a] in order && all[b] in data;
      }
    }
  }

  /** Replaying rows leaves the table as it is. */
  lemma TableKept(cfg: Config, w: World, p: World, order: seq<RowKey>)
    requires ValidConfig(cfg) && Inv(cfg, w) && Replayed(cfg, Boot(w.db), p, w.db, order)
    requires NoRepeats(order) && forall key :: key in order ==> key in w.db
    ensures p.db == w.db
  {
    hide ValidConfig, Inv, Restore, CoreInv, NoRepeats, SameSessions, SidsOf;
    var envs :| p == Restore(cfg, Boot(w.db), w.db, order, envs);
    BootRebuilt(cfg, w);
    RestoreAll(cfg, w, Boot(w.db), {}, order, envs);
  }

  lemma RecoveredAll(cfg: Config, w: World, p: World, order: seq<RowKey>, vids: seq<int>)
    requires ValidConfig(cfg) && Inv(cfg, w) && Replayed(cfg, Boot(w.db), p, w.db, order)
    requires NoRepeats(order) && forall key :: key in order <==> key in w.db && key.vid in vids
    requires forall vid :: vid in vids <==> vid in cfg.vservers
    ensures Inv(cfg, p) && Recovered(w, p)
  {
    hide ValidConfig, Inv, Restore, CoreInv, NoRepeats, Recovered;
    var envs :| p == Restore(cfg, Boot(w.db), w.db, order, envs);
    forall key | key in w.db ensures key in order {
      RowServer(cfg, w, key);
    }
    RestartRecovers(cfg, w, order, envs);
  }

  lemma RowServer(cfg: Config, w: World, key: RowKey)
    requires Inv(cfg, w) && key in w.db
    ensures key.vid in cfg.vservers
  {
    InvParts(cfg, w);
    hide Inv;
    assert Spans(cfg, key.vid, key.ip);
  }
}
