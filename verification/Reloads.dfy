/** What a reload achieves: one server per file, sessions kept or stopped, over whole runs. */
module Reloads {
  import opened Options
  import opened VServers

  // ---------- the list after the files are loaded ----------

  /** No two files share an id or a name. */
  ghost predicate Apart(files: seq<Conf>) {
    forall i, j :: 0 <= i < j < |files| ==> !Matches(files[i], files[j])
  }

  /** The last file that comes to server k. */
  function LastFor(live: seq<Server>, files: seq<Conf>, k: nat): Option<Conf>
    decreases |files|
  {
    if files == [] then None
    else
      var f := files[|files| - 1];
      if Match(live, f) == k then Some(f) else LastFor(live, files[..|files| - 1], k)
  }

  function Marked(live: seq<Server>, files: seq<Conf>): seq<Server> {
    seq(|live|, k requires 0 <= k < |live| =>
      match LastFor(live, files, k)
      case None => live[k]
      case Some(f) => Mark(live[k], f))
  }

  /** The servers of the files that come to no live server. */
  function News(live: seq<Server>, files: seq<Conf>): seq<Server>
    decreases |files|
  {
    if files == [] then []
    else
      var f := files[|files| - 1];
      News(live, files[..|files| - 1]) + if Match(live, f) == |live| then [Server(f, Init, None, {})] else []
  }

  lemma {:induction false} NewsAt(live: seq<Server>, files: seq<Conf>, v: Server)
    ensures v in News(live, files) <==>
            v == Server(v.conf, Init, None, {}) && v.conf in files && Match(live, v.conf) == |live|
    decreases |files|
  {
    if files != [] {
      var init, f := files[..|files| - 1], files[|files| - 1];
      NewsAt(live, init, v);
      assert files == init + [f];
    }
  }

  lemma MatchIs(list: seq<Server>, f: Conf, k: nat)
    requires k <= |list| && forall i :: 0 <= i < k ==> !Matches(list[i].conf, f)
    requires k < |list| ==> Matches(list[k].conf, f)
    ensures Match(list, f) == k
  {
  }

  /** After loading, the live servers carry the last file that came to them, and one new server
      follows for each other file. */
  lemma {:induction false} Loaded(live: seq<Server>, files: seq<Conf>)
    requires Apart(files)
    ensures RegisterAll(live, files) == Marked(live, files) + News(live, files)
    decreases |files|
  {
    hide Mark;
    if files == [] {
      assert Marked(live, files) == live;
    } else {
      var init, f := files[..|files| - 1], files[|files| - 1];
      Loaded(live, init);
      var front, news := Marked(live, init), News(live, init);
      var m := Match(live, f);
      MatchLoaded(live, files);
      if m < |live| {
        MarkAgain(live, init, f, m);
        MarkedMore(live, files);
        assert (front + news)[m := Mark(front[m], f)] == front[m := Mark(front[m], f)] + news;
        assert News(live, files) == news + [];
      } else {
        assert Marked(live, files) == front;
        assert front + news + [Server(f, Init, None, {})] == front + (news + [Server(f, Init, None, {})]);
      }
    }
  }

  lemma MarkAgain(live: seq<Server>, init: seq<Conf>, f: Conf, m: nat)
    requires m < |live|
    ensures Mark(Marked(live, init)[m], f) == Mark(live[m], f)
  {
  }

  lemma MarkedMore(live: seq<Server>, files: seq<Conf>)
    requires files != [] && Match(live, files[|files| - 1]) < |live|
    ensures var m := Match(live, files[|files| - 1]);
            Marked(live, files) == Marked(live, files[..|files| - 1])[m := Mark(live[m], files[|files| - 1])]
  {
    hide Mark;
  }

  /** A new file is matched against the configurations the live servers still have. */
  lemma MatchLoaded(live: seq<Server>, files: seq<Conf>)
    requires files != [] && Apart(files)
    ensures var init, f := files[..|files| - 1], files[|files| - 1];
            var list := Marked(live, init) + News(live, init);
            Match(list, f) == if Match(live, f) < |live| then Match(live, f) else |list|
  {
    var init, f := files[..|files| - 1], files[|files| - 1];
    var list := Marked(live, init) + News(live, init);
    assert forall k :: 0 <= k < |live| ==> list[k].conf == live[k].conf;
    forall k | |live| <= k < |list|
      ensures !Matches(list[k].conf, f)
    {
      assert list[k] in News(live, init);
      NewsAt(live, init, list[k]);
      var i :| 0 <= i < |init| && init[i] == list[k].conf;
      assert init[i] == files[i];
    }
    MatchIs(list, f, if Match(live, f) < |live| then Match(live, f) else |list|);
  }

  lemma {:induction false} LastForIn(live: seq<Server>, files: seq<Conf>, k: nat)
    ensures match LastFor(live, files, k)
            case None => forall f :: f in files ==> Match(live, f) != k
            case Some(f) => f in files && Match(live, f) == k
    decreases |files|
  {
    if files != [] {
      LastForIn(live, files[..|files| - 1], k);
      assert files == files[..|files| - 1] + [files[|files| - 1]];
    }
  }

  /** Of two files that come to the same server, the later one stays. */
  lemma {:induction false} LastForLater(live: seq<Server>, files: seq<Conf>, i: nat, j: nat)
    requires i < j < |files| && Match(live, files[i]) == Match(live, files[j]) && Apart(files)
    ensures LastFor(live, files, Match(live, files[j])) != Some(files[i])
    decreases |files|
  {
    var init, f := files[..|files| - 1], files[|files| - 1];
    if Match(live, f) == Match(live, files[j]) {
      assert !Matches(files[i], f) || i == |files| - 1;
    } else {
      assert init[i] == files[i] && init[j] == files[j];
      LastForLater(live, init, i, j);
    }
  }

  // ---------- the list after the walk ----------

  function ConfAfter(v: Server): Conf {
    if (v.flag == Reload || v.flag == Reset) && v.dummy.Some? then v.dummy.value else v.conf
  }

  /** Every flag but DONE ends as DONE, and DONE as NONE. */
  lemma {:induction false} WalkAt(list: seq<Server>, t: Table, k: nat)
    requires k < |list|
    ensures var after := Walk(list, t).0;
            && |after| == |list| && after[k].conf == ConfAfter(list[k])
            && after[k].flag == if list[k].flag == Done then Absent else Done
    decreases |list|
  {
    var init := list[..|list| - 1];
    WalkLength(init, t);
    if k < |list| - 1 {
      WalkAt(init, t, k);
    }
  }

  lemma {:induction false} WalkLength(list: seq<Server>, t: Table)
    ensures |Walk(list, t).0| == |list|
    decreases |list|
  {
    if list != [] { WalkLength(list[..|list| - 1], t); }
  }

  // ---------- the list after the removal ----------

  lemma {:induction false} KeptIn(list: seq<Server>, i: nat)
    requires i < |list| && list[i].flag != Absent && !AbsentHas(list[i + 1..], list[i].conf.id)
    ensures list[i] in Kept(list)
  {
    if i > 0 {
      assert list[1..][i - 1] == list[i] && list[1..][i..] == list[i + 1..];
      KeptIn(list[1..], i - 1);
    }
  }

  lemma {:induction false} KeptFrom(list: seq<Server>, v: Server) returns (i: nat)
    requires v in Kept(list)
    ensures i < |list| && list[i] == v && v.flag != Absent && !AbsentHas(list[i + 1..], v.conf.id)
  {
    if list[0].flag != Absent && !AbsentHas(list[1..], list[0].conf.id) && v == list[0] {
      i := 0;
    } else {
      i := KeptFrom(list[1..], v);
      i := i + 1;
    }
  }

  /** The present servers have different configurations. */
  ghost predicate ConfsDiffer(list: seq<Server>) {
    forall i, j :: 0 <= i < j < |list| && list[i].flag != Absent && list[j].flag != Absent ==>
      list[i].conf != list[j].conf
  }

  lemma {:induction false} KeptDiffer(list: seq<Server>)
    requires ConfsDiffer(list)
    ensures ConfsDiffer(Kept(list))
  {
    if list != [] {
      assert ConfsDiffer(list[1..]);
      KeptDiffer(list[1..]);
      var rest := Kept(list[1..]);
      forall v | v in rest && list[0].flag != Absent
        ensures v.conf != list[0].conf
      {
        var i := KeptFrom(list[1..], v);
        assert list[i + 1] == v;
      }
      if Kept(list) != [] + rest {
        assert Kept(list) == [list[0]] + rest;
        forall i, j | 0 <= i < j < |Kept(list)| && Kept(list)[i].flag != Absent && Kept(list)[j].flag != Absent
          ensures Kept(list)[i].conf != Kept(list)[j].conf
        {
          if i == 0 { assert Kept(list)[j] in rest; }
        }
      } else {
        assert Kept(list) == rest;
      }
    }
  }

  // ---------- when a reload ends with one server per file ----------

  /** Exactly one server for each file, with the configuration of that file, and brought up. */
  ghost predicate OnePerFile(list: seq<Server>, files: seq<Conf>) {
    && (forall v :: v in list ==> v.flag == Done && v.conf in files)
    && ConfsDiffer(list)
    && (forall f :: f in files ==> HasConf(list, f))
  }

  ghost predicate HasConf(list: seq<Server>, f: Conf) {
    exists v :: v in list && v.conf == f
  }

  /** The servers before a reload: brought up, no id or name shared. */
  ghost predicate Live(list: seq<Server>) {
    && (forall v :: v in list ==> v.flag == Done)
    && forall i, j :: 0 <= i < j < |list| ==> !Matches(list[i].conf, list[j].conf)
  }

  /** No live server is the first match of two files. */
  ghost predicate OneEach(live: seq<Server>, files: seq<Conf>) {
    forall i, j :: 0 <= i < j < |files| && Match(live, files[i]) == Match(live, files[j]) ==>
      Match(live, files[j]) == |live|
  }

  /** A live server whose id a file has is the first match of some file. */
  ghost predicate NoStaleId(live: seq<Server>, files: seq<Conf>) {
    forall k, f :: 0 <= k < |live| && f in files && live[k].conf.id == f.id ==> Claimed(live, files, k)
  }

  ghost predicate Claimed(live: seq<Server>, files: seq<Conf>, k: nat) {
    exists f :: f in files && Match(live, f) == k
  }

  /** Server k after the walk. */
  ghost predicate WalkedAs(live: seq<Server>, files: seq<Conf>, after: seq<Server>) {
    && |after| == |live| + |News(live, files)|
    && (forall k :: 0 <= k < |live| ==> LiveWalked(live, files, after, k))
    && (forall k :: |live| <= k < |after| ==>
          after[k].flag == Done && after[k].conf == News(live, files)[k - |live|].conf)
  }

  ghost predicate LiveWalked(live: seq<Server>, files: seq<Conf>, after: seq<Server>, k: nat)
    requires k < |live| && k < |after|
  {
    match LastFor(live, files, k)
    case None => after[k].flag == Absent && after[k].conf == live[k].conf
    case Some(f) => after[k].flag == Done && after[k].conf == f
  }

  lemma Walked(live: seq<Server>, files: seq<Conf>, t: Table)
    requires Live(live) && Apart(files)
    ensures WalkedAs(live, files, Walk(RegisterAll(live, files), t).0)
  {
    hide Walk, Apart;
    Loaded(live, files);
    var list := RegisterAll(live, files);
    WalkLength(list, t);
    var after := Walk(list, t).0;
    forall k | 0 <= k < |live|
      ensures LiveWalked(live, files, after, k)
    {
      WalkAt(list, t, k);
      assert live[k] in live && list[k] == Marked(live, files)[k];
    }
    forall k | |live| <= k < |after|
      ensures after[k].flag == Done && after[k].conf == News(live, files)[k - |live|].conf
    {
      WalkAt(list, t, k);
      assert list[k] == News(live, files)[k - |live|] && list[k] in News(live, files);
      NewsAt(live, files, list[k]);
    }
  }

  /** Where a server with the configuration of a file can be after the walk. */
  lemma PresentAt(live: seq<Server>, files: seq<Conf>, after: seq<Server>, n: nat)
    requires WalkedAs(live, files, after) && n < |after| && after[n].flag != Absent
    ensures after[n].flag == Done && after[n].conf in files
    ensures if n < |live| then LastFor(live, files, n) == Some(after[n].conf) && Match(live, after[n].conf) == n
            else Match(live, after[n].conf) == |live|
  {
    hide Match, LastFor;
    if n < |live| {
      assert LiveWalked(live, files, after, n);
      LastForIn(live, files, n);
    } else {
      var v := News(live, files)[n - |live|];
      assert v in News(live, files);
      NewsAt(live, files, v);
    }
  }

  lemma {:induction false} NewsDiffer(live: seq<Server>, files: seq<Conf>)
    requires Apart(files)
    ensures forall i, j :: 0 <= i < j < |News(live, files)| ==> News(live, files)[i].conf != News(live, files)[j].conf
    decreases |files|
  {
    if files != [] {
      var init, f := files[..|files| - 1], files[|files| - 1];
      NewsDiffer(live, init);
      forall v | v in News(live, init)
        ensures v.conf != f
      {
        NewsAt(live, init, v);
        var i :| 0 <= i < |init| && init[i] == v.conf;
        assert !Matches(files[i], f);
      }
    }
  }

  lemma WalkedDiffer(live: seq<Server>, files: seq<Conf>, after: seq<Server>)
    requires WalkedAs(live, files, after) && Apart(files)
    ensures ConfsDiffer(after)
  {
    NewsDiffer(live, files);
    hide Match, LastFor, News, LiveWalked, Apart;
    forall i, j | 0 <= i < j < |after| && after[i].flag != Absent && after[j].flag != Absent
      ensures after[i].conf != after[j].conf
    {
      PresentAt(live, files, after, i);
      PresentAt(live, files, after, j);
    }
  }

  /** The list after the removal holds files only, each at most once. */
  lemma KeptFiles(live: seq<Server>, files: seq<Conf>, after: seq<Server>)
    requires WalkedAs(live, files, after) && Apart(files)
    ensures forall v :: v in Kept(after) ==> v.flag == Done && v.conf in files
    ensures ConfsDiffer(Kept(after))
  {
    hide WalkedAs, Kept, AbsentHas, Apart, ConfsDiffer;
    WalkedDiffer(live, files, after);
    KeptDiffer(after);
    forall v | v in Kept(after)
      ensures v.flag == Done && v.conf in files
    {
      var i := KeptFrom(after, v);
      PresentAt(live, files, after, i);
    }
  }

  /** A file keeps its server exactly when no later file came to the same server and no absent
      server behind it has its id. */
  lemma FileKept(live: seq<Server>, files: seq<Conf>, after: seq<Server>, f: Conf)
    requires WalkedAs(live, files, after) && f in files
    ensures var m := Match(live, f);
            HasConf(Kept(after), f) <==>
            m == |live| || (LastFor(live, files, m) == Some(f) && !AbsentHas(after[m + 1..], f.id))
  {
    hide WalkedAs, Kept, LastFor, Match;
    var m := Match(live, f);
    if HasConf(Kept(after), f) {
      var v :| v in Kept(after) && v.conf == f;
      var i := KeptFrom(after, v);
      PresentAt(live, files, after, i);
    }
    WalkedLength(live, files, after);
    if m == |live| {
      NewsAt(live, files, Server(f, Init, None, {}));
      var i := NewServer(live, files, after, f);
      KeptIn(after, i);
    } else if LastFor(live, files, m) == Some(f) && !AbsentHas(after[m + 1..], f.id) {
      LiveServer(live, files, after, m);
      KeptIn(after, m);
    }
  }

  lemma WalkedLength(live: seq<Server>, files: seq<Conf>, after: seq<Server>)
    requires WalkedAs(live, files, after)
    ensures |live| <= |after|
  {
  }

  lemma LiveServer(live: seq<Server>, files: seq<Conf>, after: seq<Server>, k: nat)
    requires WalkedAs(live, files, after) && k < |live|
    ensures k < |after| && LiveWalked(live, files, after, k)
  {
  }

  lemma NewServer(live: seq<Server>, files: seq<Conf>, after: seq<Server>, f: Conf) returns (i: nat)
    requires WalkedAs(live, files, after) && Server(f, Init, None, {}) in News(live, files)
    ensures i < |after| && after[i].flag == Done && after[i].conf == f && !AbsentHas(after[i + 1..], f.id)
  {
    hide LiveWalked, News;
    var n :| 0 <= n < |News(live, files)| && News(live, files)[n] == Server(f, Init, None, {});
    i := |live| + n;
    forall v | v in after[i + 1..]
      ensures v.flag != Absent
    {
      var j :| 0 <= j < |after[i + 1..]| && after[i + 1..][j] == v;
      assert after[i + 1 + j] == v;
    }
  }

  /** The exact condition for a reload: it ends with exactly one server per file, each brought up
      with its file, if and only if no live server is claimed twice and no unclaimed live server
      still holds the id of a file. */
  lemma ReloadExact(live: seq<Server>, files: seq<Conf>, t: Table)
    requires Live(live) && Apart(files)
    ensures OnePerFile(ReloadAll(live, t, files).0, files) <==> OneEach(live, files) && NoStaleId(live, files)
  {
    hide Apart, Live, Walk, RegisterAll, Kept, AbsentHas, WalkedAs, ConfsDiffer, OneEach, NoStaleId, LastFor, Match,
      HasConf;
    var after := Walk(RegisterAll(live, files), t).0;
    Walked(live, files, t);
    KeptFiles(live, files, after);
    if OneEach(live, files) && NoStaleId(live, files) {
      forall f | f in files
        ensures HasConf(Kept(after), f)
      {
        KeptGood(live, files, after, f);
      }
    }
    if OnePerFile(Kept(after), files) {
      NothingLost(live, files, after);
    }
  }

  lemma KeptGood(live: seq<Server>, files: seq<Conf>, after: seq<Server>, f: Conf)
    requires WalkedAs(live, files, after) && Apart(files) && OneEach(live, files) && NoStaleId(live, files)
             && f in files
    ensures HasConf(Kept(after), f)
  {
    hide Apart, Kept, LastFor, Match, WalkedAs, HasConf, NoStaleId;
    FileKept(live, files, after, f);
    var m := Match(live, f);
    if m != |live| {
      OnlyFor(live, files, f);
      WalkedLength(live, files, after);
      if AbsentHas(after[m + 1..], f.id) {
        var v :| v in after[m + 1..] && v.flag == Absent && v.conf.id == f.id;
        var j :| 0 <= j < |after[m + 1..]| && after[m + 1..][j] == v;
        StaleIds(live, files, after, m + 1 + j, f);
      }
    }
  }

  /** If a file is the only one that comes to a server, it is the last. */
  lemma OnlyFor(live: seq<Server>, files: seq<Conf>, f: Conf)
    requires OneEach(live, files) && f in files && Match(live, f) < |live|
    ensures LastFor(live, files, Match(live, f)) == Some(f)
  {
    hide Match, LastFor;
    LastForIn(live, files, Match(live, f));
    var i :| 0 <= i < |files| && files[i] == f;
    match LastFor(live, files, Match(live, f))
    case None =>
    case Some(g) =>
      var j :| 0 <= j < |files| && files[j] == g;
  }

  /** A server that no file claimed has no file's id. */
  lemma StaleIds(live: seq<Server>, files: seq<Conf>, after: seq<Server>, n: nat, f: Conf)
    requires WalkedAs(live, files, after) && NoStaleId(live, files) && f in files
    requires n < |after| && after[n].flag == Absent
    ensures after[n].conf.id != f.id
  {
    hide Match, LastFor, News;
    assert n < |live| && LiveWalked(live, files, after, n);
    LastForIn(live, files, n);
    assert !Claimed(live, files, n);
  }

  /** If no file lost its server, both conditions hold. */
  lemma NothingLost(live: seq<Server>, files: seq<Conf>, after: seq<Server>)
    requires Apart(files) && WalkedAs(live, files, after) && forall f :: f in files ==> HasConf(Kept(after), f)
    ensures OneEach(live, files) && NoStaleId(live, files)
  {
    hide Apart, Kept, LastFor, Match, WalkedAs, HasConf;
    forall i, j | 0 <= i < j < |files| && Match(live, files[i]) == Match(live, files[j])
      ensures Match(live, files[j]) == |live|
    {
      FileKept(live, files, after, files[i]);
      LastForLater(live, files, i, j);
    }
    forall k, f | 0 <= k < |live| && f in files && live[k].conf.id == f.id
      ensures Claimed(live, files, k)
    {
      FileKept(live, files, after, f);
      MatchBefore(live, f, k);
      if !Claimed(live, files, k) {
        assert Match(live, f) < k;
        UnclaimedAbsent(live, files, after, k);
        AbsentBehind(after, Match(live, f), k, f.id);
      }
    }
  }

  lemma MatchBefore(live: seq<Server>, f: Conf, k: nat)
    requires k < |live| && Matches(live[k].conf, f)
    ensures Match(live, f) <= k
  {
  }

  lemma UnclaimedAbsent(live: seq<Server>, files: seq<Conf>, after: seq<Server>, k: nat)
    requires WalkedAs(live, files, after) && k < |live| && !Claimed(live, files, k)
    ensures k < |after| && after[k].flag == Absent && after[k].conf == live[k].conf
  {
    hide Match, LastFor, News;
    assert LiveWalked(live, files, after, k);
    LastForIn(live, files, k);
  }

  lemma AbsentBehind(after: seq<Server>, m: nat, k: nat, id: int)
    requires m < k < |after| && after[k].flag == Absent && after[k].conf.id == id
    ensures AbsentHas(after[m + 1..], id)
  {
    assert after[m + 1..][k - m - 1] == after[k];
  }
}
