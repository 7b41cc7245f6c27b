/** The storage that also keeps a file: write a temporary file, then rename it
    (internal/repository/filestorage.go). */
module FileStorage {
  import opened Model
  import opened Storage

  // ---------- What the file holds ----------

  /** encoding/json, seen from outside. */
  datatype Codec = Codec(encode: seq<Metric> -> seq<Byte>, decode: seq<Byte> -> Option<seq<Metric>>)

  /** JSON has no infinities and no NaN; the encoder refuses them. */
  predicate Encodable(list: seq<Metric>) {
    forall m :: m in list && m.value.Some? ==> m.value.value.Finite?
  }

  ghost predicate Lawful(c: Codec) {
    forall list :: Encodable(list) ==> c.decode(c.encode(list)) == Some(list)
  }

  /** What survives a save and a load: a gauge with a counter's id does not. */
  function Visible(st: State): State {
    State(map id | id in st.gauges && id !in st.counters :: st.gauges[id], st.counters)
  }

  /** Loading a file replays its entries into an empty storage. */
  function Restored(list: seq<Metric>): State {
    Fold(EMPTY, list)
  }

  predicate Savable(st: State) {
    forall id :: id in st.gauges && id !in st.counters ==> st.gauges[id].Finite?
  }

  /** Just NaN and the two infinities keep a list from being encoded, and a state from being
      saved; in a gauge hidden by a counter they do no harm. */
  lemma OnlyThreeValuesBlock(list: seq<Metric>, st: State)
    ensures Encodable(list) <==> forall m :: m in list ==> m.value !in {Some(NaN), Some(PosInf), Some(NegInf)}
    ensures Savable(st) <==>
      forall id :: id in st.gauges ==> id in st.counters || st.gauges[id] !in {NaN, PosInf, NegInf}
  {
  }

  lemma {:induction false} AloneInTheSum(list: seq<Metric>, i: nat)
    requires i < |list| && forall j, k :: 0 <= j < k < |list| ==> list[j].id != list[k].id
    ensures DeltaSum(list, list[i].id) == DeltaOf(list[i], list[i].id)
    decreases |list|
  {
    var front := list[..|list| - 1];
    if i < |front| {
      AloneInTheSum(front, i);
    } else {
      IdsOfItems(front, list[i].id);
      NoItemNoDelta(front, list[i].id);
    }
  }

  lemma RestoredCounter(st: State, list: seq<Metric>, id: string)
    requires Enumerates(list, Merged(st))
    ensures id in Restored(list).counters <==> id in st.counters
    ensures id in st.counters ==> Restored(list).counters[id] == st.counters[id]
  {
    FoldCounter(EMPTY, list, id);
    IdsOfItems(list, id);
    if id in st.counters {
      assert Merged(st)[id] in list;
      var i :| 0 <= i < |list| && list[i] == Merged(st)[id];
      AloneInTheSum(list, i);
      WrapInRange(st.counters[id]);
    }
  }

  lemma RestoredGauge(st: State, list: seq<Metric>, id: string)
    requires Enumerates(list, Merged(st))
    ensures id in Restored(list).gauges <==> id in Visible(st).gauges
    ensures id in Visible(st).gauges ==> Restored(list).gauges[id] == Visible(st).gauges[id]
  {
    FoldGauge(EMPTY, list, id);
    IdsOfItems(list, id);
    if id in Visible(st).gauges {
      assert Merged(st)[id] in list;
      var i := LastWriteExists(list, id);
      assert list[i] in list;
    }
  }

  /** Loading what was saved gives the counters back, and the gauges whose id is
      not a counter's, whatever the order of the list. */
  lemma SaveLoadRoundTrip(st: State, list: seq<Metric>)
    requires Enumerates(list, Merged(st))
    ensures Restored(list) == Visible(st)
    ensures Restored(list) == st <==> st.gauges.Keys !! st.counters.Keys
  {
    var r := Restored(list);
    assert r.counters == st.counters by {
      forall id
        ensures id in r.counters <==> id in st.counters
        ensures id in st.counters ==> r.counters[id] == st.counters[id]
      {
        RestoredCounter(st, list, id);
      }
    }
    assert r.gauges == Visible(st).gauges by {
      forall id
        ensures id in r.gauges <==> id in Visible(st).gauges
        ensures id in Visible(st).gauges ==> r.gauges[id] == Visible(st).gauges[id]
      {
        RestoredGauge(st, list, id);
      }
    }
    if st.gauges.Keys !! st.counters.Keys {
      assert Visible(st).gauges == st.gauges;
    } else {
      var id :| id in st.gauges.Keys && id in st.counters.Keys;
      assert id !in r.gauges;
    }
  }

  lemma SavableMeansEncodable(st: State, list: seq<Metric>)
    requires Enumerates(list, Merged(st))
    ensures Encodable(list) <==> Savable(st)
  {
    if Encodable(list) {
      forall id | id in st.gauges && id !in st.counters
        ensures st.gauges[id].Finite?
      {
        assert Merged(st)[id] in list;
      }
    }
  }

  lemma RestoredGaugesAreFinite(list: seq<Metric>, id: string)
    requires Encodable(list) && id in Restored(list).gauges
    ensures Restored(list).gauges[id].Finite?
  {
    FoldGauge(EMPTY, list, id);
    var i := LastWriteExists(list, id);
    assert list[i] in list;
  }

  // ---------- The save protocol, interleaved with updates and crashes ----------

  datatype Saver =
    | Idle
    | Listed(at: nat, list: seq<Metric>)
    | Writing(at: nat, list: seq<Metric>, done: nat)
    | Closed(at: nat, list: seq<Metric>)

  datatype Saved = Saved(at: nat, list: seq<Metric>)

  /** `history` lists every state the storage has held, oldest first, and `saved`
      says which of them the target file was written from. Both are bookkeeping. */
  datatype World = World(
    mem: State,
    history: seq<State>,
    saver: Saver,
    target: Option<seq<Byte>>,
    tmp: Option<seq<Byte>>,
    saved: Option<Saved>)

  datatype Action =
    | Update(items: seq<Metric>)      // any goroutine, at any time
    | BeginSave(list: seq<Metric>)    // GetAllMetrics under the read lock
    | CreateFails
    | CreateTmp
    | EncodeFails
    | Write(n: nat)
    | WriteFails(n: nat)              // n bytes got through
    | CloseFails
    | CloseTmp
    | RenameFails
    | Rename
    | Restart(restore: bool)          // crash, then a new process

  ghost predicate Enabled(c: Codec, w: World, a: Action) {
    match a
    case Update(_) => true
    case BeginSave(list) => w.saver.Idle? && Enumerates(list, Merged(w.mem))
    case CreateFails => w.saver.Listed?
    case CreateTmp => w.saver.Listed?
    case EncodeFails => w.saver.Writing? && !Encodable(w.saver.list)
    case Write(n) => w.saver.Writing? && Encodable(w.saver.list) && w.saver.done + n <= |c.encode(w.saver.list)|
    case WriteFails(n) => w.saver.Writing? && Encodable(w.saver.list) && w.saver.done + n < |c.encode(w.saver.list)|
    case CloseFails => w.saver.Writing?
    case CloseTmp =>
      w.saver.Writing? && Encodable(w.saver.list) && w.saver.done == |c.encode(w.saver.list)|
    case RenameFails => w.saver.Closed?
    case Rename => w.saver.Closed? && w.tmp.Some?
    case Restart(restore) => restore && w.target.Some? ==> c.decode(w.target.value).Some?
  }

  ghost function Push(w: World, st: State): World {
    w.(mem := st, history := w.history + [st])
  }

  ghost function Do(c: Codec, w: World, a: Action): World
    requires Enabled(c, w, a)
  {
    match a
    case Update(items) => Push(w, Fold(w.mem, items))
    case BeginSave(list) => w.(saver := Listed(if |w.history| == 0 then 0 else |w.history| - 1, list))
    case CreateTmp => w.(saver := Writing(w.saver.at, w.saver.list, 0), tmp := Some([]))
    case Write(n) =>
      w.(saver := Writing(w.saver.at, w.saver.list, w.saver.done + n),
         tmp := Some(c.encode(w.saver.list)[..w.saver.done + n]))
    case WriteFails(n) => w.(saver := Idle, tmp := Some(c.encode(w.saver.list)[..w.saver.done + n]))
    case CloseTmp => w.(saver := Closed(w.saver.at, w.saver.list))
    case Rename =>
      w.(saver := Idle, target := w.tmp, tmp := None, saved := Some(Saved(w.saver.at, w.saver.list)))
    case Restart(restore) =>
      Push(w.(saver := Idle),
           if restore && w.target.Some? then Restored(c.decode(w.target.value).value) else EMPTY)
    case CreateFails => w.(saver := Idle)
    case EncodeFails => w.(saver := Idle)
    case CloseFails => w.(saver := Idle)
    case RenameFails => w.(saver := Idle)
  }

  ghost predicate Step(c: Codec, w: World, w': World) {
    exists a :: Enabled(c, w, a) && w' == Do(c, w, a)
  }

  ghost predicate Init(w: World) {
    w.history == [w.mem] && w.saver.Idle? && w.saved.None?
  }

  ghost predicate Path(c: Codec, ws: seq<World>) {
    |ws| > 0 && forall i :: 0 <= i < |ws| - 1 ==> Step(c, ws[i], ws[i + 1])
  }

  ghost predicate Run(c: Codec, ws: seq<World>) {
    Path(c, ws) && Init(ws[0])
  }

  ghost predicate Reaches(c: Codec, w: World, w': World) {
    exists ws :: Path(c, ws) && ws[0] == w && ws[|ws| - 1] == w'
  }

  lemma ReachesItself(c: Codec, w: World)
    ensures Reaches(c, w, w)
  {
    assert Path(c, [w]);
  }

  lemma ReachesNext(c: Codec, w: World, w': World, a: Action)
    requires Reaches(c, w, w') && Enabled(c, w', a)
    ensures Reaches(c, w, Do(c, w', a))
  {
    var ws :| Path(c, ws) && ws[0] == w && ws[|ws| - 1] == w';
    assert Step(c, w', Do(c, w', a));
    assert Path(c, ws + [Do(c, w', a)]);
  }

  /** `list` is what a saver that read the storage in state history[at] writes. */
  ghost predicate ListingOf(w: World, at: nat, list: seq<Metric>) {
    at < |w.history| && Enumerates(list, Merged(w.history[at]))
  }

  ghost predicate SaverInv(c: Codec, w: World) {
    match w.saver
    case Idle => true
    case Listed(at, list) => ListingOf(w, at, list)
    case Writing(at, list, done) =>
      ListingOf(w, at, list) && done <= |c.encode(list)| && w.tmp == Some(c.encode(list)[..done])
    case Closed(at, list) => ListingOf(w, at, list) && Encodable(list) && w.tmp == Some(c.encode(list))
  }

  ghost predicate TargetInv(c: Codec, before: Option<seq<Byte>>, w: World) {
    match w.saved
    case None => w.target == before
    case Some(s) =>
      && ListingOf(w, s.at, s.list) && Encodable(s.list) && w.target == Some(c.encode(s.list))
      && (!w.saver.Idle? ==> s.at <= w.saver.at)
  }

  ghost predicate Inv(c: Codec, before: Option<seq<Byte>>, w: World) {
    && |w.history| > 0 && w.history[|w.history| - 1] == w.mem
    && SaverInv(c, w)
    && TargetInv(c, before, w)
  }

  lemma StepKeepsInv(c: Codec, before: Option<seq<Byte>>, w: World, a: Action)
    requires Inv(c, before, w) && Enabled(c, w, a)
    ensures Inv(c, before, Do(c, w, a))
  {
    var w' := Do(c, w, a);
    assert forall k :: 0 <= k < |w.history| ==> w'.history[k] == w.history[k];
    if a.CloseTmp? {
      assert c.encode(w.saver.list)[..w.saver.done] == c.encode(w.saver.list);
    }
  }

  lemma {:induction false} RunKeepsInv(c: Codec, ws: seq<World>, i: nat)
    requires Run(c, ws) && i < |ws|
    ensures Inv(c, ws[0].target, ws[i])
  {
    if i > 0 {
      RunKeepsInv(c, ws, i - 1);
      assert Step(c, ws[i - 1], ws[i - 1 + 1]);
      var a :| Enabled(c, ws[i - 1], a) && ws[i] == Do(c, ws[i - 1], a);
      StepKeepsInv(c, ws[0].target, ws[i - 1], a);
    }
  }

  /** Whatever is interrupted, and wherever: the file is the one found at start, or
      it decodes to a state the storage really held (as far as a file can show it). */
  lemma RecoveryIsHistoric(c: Codec, ws: seq<World>, i: nat)
    requires Lawful(c) && Run(c, ws) && i < |ws|
    ensures ws[i].saved.None? ==> ws[i].target == ws[0].target
    ensures ws[i].saved.Some? ==>
      && ws[i].target.Some?
      && c.decode(ws[i].target.value).Some?
      && ws[i].saved.value.at < |ws[i].history|
      && Restored(c.decode(ws[i].target.value).value) == Visible(ws[i].history[ws[i].saved.value.at])
  {
    RunKeepsInv(c, ws, i);
    if ws[i].saved.Some? {
      var s := ws[i].saved.value;
      SaveLoadRoundTrip(ws[i].history[s.at], s.list);
    }
  }

  lemma StepMovesForward(c: Codec, before: Option<seq<Byte>>, w: World, a: Action)
    requires Inv(c, before, w) && Enabled(c, w, a)
    ensures w.history <= Do(c, w, a).history
    ensures w.saved.Some? ==> Do(c, w, a).saved.Some? && w.saved.value.at <= Do(c, w, a).saved.value.at
  {
  }

  /** Along a run the state that a restart would find only moves forward in history. */
  lemma {:induction false} RecoveryMovesForward(c: Codec, ws: seq<World>, i: nat, j: nat)
    requires Run(c, ws) && i <= j < |ws|
    ensures ws[i].history <= ws[j].history
    ensures ws[i].saved.Some? ==> ws[j].saved.Some? && ws[i].saved.value.at <= ws[j].saved.value.at
    decreases j
  {
    if i < j {
      RecoveryMovesForward(c, ws, i, j - 1);
      RunKeepsInv(c, ws, j - 1);
      assert Step(c, ws[j - 1], ws[j - 1 + 1]);
      var a :| Enabled(c, ws[j - 1], a) && ws[j] == Do(c, ws[j - 1], a);
      StepMovesForward(c, ws[0].target, ws[j - 1], a);
    }
  }

  lemma StepHistory(c: Codec, w: World, w': World)
    requires Step(c, w, w')
    ensures w'.history == w.history || w'.history == w.history + [w'.mem]
    ensures w'.history == w.history ==> w'.mem == w.mem
  {
  }

  /** The history holds no state but those the storage has held at some moment of the run. */
  lemma {:induction false} HistoryWasHeld(c: Codec, ws: seq<World>, i: nat, at: nat) returns (k: nat)
    requires Run(c, ws) && i < |ws| && at < |ws[i].history|
    ensures k <= i && ws[k].mem == ws[i].history[at]
    decreases i
  {
    if i == 0 {
      k := 0;
    } else {
      assert Step(c, ws[i - 1], ws[i - 1 + 1]);
      StepHistory(c, ws[i - 1], ws[i]);
      if at < |ws[i - 1].history| {
        k := HistoryWasHeld(c, ws, i - 1, at);
      } else {
        k := i;
      }
    }
  }

  /** The worlds of a run, step by step through these actions. */
  ghost predicate Does(c: Codec, ws: seq<World>, acts: seq<Action>) {
    && |ws| == |acts| + 1
    && forall i :: 0 <= i < |acts| ==> Enabled(c, ws[i], acts[i]) && ws[i + 1] == Do(c, ws[i], acts[i])
  }

  function Updates(acts: seq<Action>): seq<Metric> {
    if acts == [] then []
    else
      var before, last := Updates(acts[..|acts| - 1]), acts[|acts| - 1];
      if last.Update? then before + last.items else before
  }

  /** Until a restart the storage holds what the updates make of it, whatever a saver does. */
  lemma {:induction false} MemoryFollowsUpdates(c: Codec, ws: seq<World>, acts: seq<Action>, n: nat)
    requires Does(c, ws, acts) && n <= |acts| && forall i :: 0 <= i < n ==> !acts[i].Restart?
    ensures ws[n].mem == Fold(ws[0].mem, Updates(acts[..n]))
  {
    if n > 0 {
      MemoryFollowsUpdates(c, ws, acts, n - 1);
      assert acts[..n][..n - 1] == acts[..n - 1];
      var a := acts[n - 1];
      assert Enabled(c, ws[n - 1], a) && ws[n - 1 + 1] == Do(c, ws[n - 1], a);
      if a.Update? {
        FoldConcat(ws[0].mem, Updates(acts[..n - 1]), a.items);
      }
    }
  }

  /** A restart that loads the file finds what is visible of the state saved last; one that does
      not, or finds no file, starts empty. The files and the history stay; a save under way is over. */
  lemma RestartRecovers(c: Codec, ws: seq<World>, i: nat, restore: bool)
    requires Lawful(c) && Run(c, ws) && i + 1 < |ws|
    requires Enabled(c, ws[i], Restart(restore)) && ws[i + 1] == Do(c, ws[i], Restart(restore))
    ensures ws[i + 1].target == ws[i].target && ws[i + 1].tmp == ws[i].tmp
    ensures ws[i + 1].saver.Idle? && ws[i + 1].saved == ws[i].saved
    ensures ws[i + 1].history == ws[i].history + [ws[i + 1].mem]
    ensures restore && ws[i].saved.Some? ==>
      && ws[i].saved.value.at < |ws[i].history|
      && ws[i + 1].mem == Visible(ws[i].history[ws[i].saved.value.at])
    ensures !restore || ws[i].target == None ==> ws[i + 1].mem == State(map[], map[])
  {
    RecoveryIsHistoric(c, ws, i);
  }

  /** A saver with a complete, closed temporary file renames it. */
  ghost predicate Renames(c: Codec, w: World, w': World) {
    Enabled(c, w, Rename) && w' == Do(c, w, Rename)
  }

  lemma OnlyRenameTouchesTarget(c: Codec, w: World, w': World)
    requires Step(c, w, w') && !Renames(c, w, w')
    ensures w'.target == w.target && w'.saved == w.saved
  {
  }

  /** Along any run the target is as it was unless some step renames a complete temporary file
      over it: a save that fails anywhere, at the rename too, or is cut short by a crash
      anywhere, also between close and rename, leaves the target alone. */
  lemma {:induction false} UnfinishedSaveKeepsTarget(c: Codec, ws: seq<World>, i: nat, j: nat)
    requires Run(c, ws) && i <= j < |ws|
    ensures ws[j].saved == ws[i].saved ==> ws[j].target == ws[i].target
    ensures (ws[j].target == ws[i].target && ws[j].saved == ws[i].saved)
         || exists k :: i <= k < j && Renames(c, ws[k], ws[k + 1])
    decreases j
  {
    RunKeepsInv(c, ws, i);
    RunKeepsInv(c, ws, j);
    if i < j {
      UnfinishedSaveKeepsTarget(c, ws, i, j - 1);
      assert Step(c, ws[j - 1], ws[j - 1 + 1]);
      if !Renames(c, ws[j - 1], ws[j - 1 + 1]) {
        OnlyRenameTouchesTarget(c, ws[j - 1], ws[j]);
      }
    }
  }

  /** What a rename puts in place is the complete encoding of a listing of a state really held. */
  lemma RenamePutsWholeState(c: Codec, ws: seq<World>, k: nat)
    requires Run(c, ws) && k + 1 < |ws| && Renames(c, ws[k], ws[k + 1])
    ensures ws[k].saver.Closed?
    ensures var s := ws[k].saver;
      && s.at < |ws[k].history|
      && Enumerates(s.list, Merged(ws[k].history[s.at])) && Encodable(s.list)
      && ws[k + 1].target == Some(c.encode(s.list))
  {
    RunKeepsInv(c, ws, k);
  }

  ghost function Go(c: Codec, start: World, w: World, a: Action): (w': World)
    requires Reaches(c, start, w) && Enabled(c, w, a)
    ensures w' == Do(c, w, a) && Reaches(c, start, w')
  {
    ReachesNext(c, start, w, a);
    Do(c, w, a)
  }

  // ---------- The storage object ----------

  datatype Fault = NoFault | AtCreate | AtWrite(n: nat) | AtClose | AtRename

  datatype LoadError = NotExist | BadFile

  class FileBackedStorage {
    const mem: MemStorage
    const codec: Codec
    const syncWrite: bool
    var target: Option<seq<Byte>>
    var tmp: Option<seq<Byte>>

    constructor (mem: MemStorage, codec: Codec, syncWrite: bool, target: Option<seq<Byte>>, tmp: Option<seq<Byte>>)
      ensures this.mem == mem && this.codec == codec && this.syncWrite == syncWrite
      ensures this.target == target && this.tmp == tmp
    {
      this.mem, this.codec, this.syncWrite := mem, codec, syncWrite;
      this.target, this.tmp := target, tmp;
    }

    /** The file is absent or holds a readable list. */
    ghost predicate Readable()
      reads this
    {
      target.Some? ==> codec.decode(target.value).Some? && Encodable(codec.decode(target.value).value)
    }

    /** A restart now would find the current state. */
    ghost predicate Durable()
      reads this, mem
    {
      target.Some? && codec.decode(target.value).Some?
      && Restored(codec.decode(target.value).value) == Visible(mem.Contents())
    }

    /** The file is the encoding of a listing of st. */
    ghost predicate SavedAs(st: State)
      reads this
    {
      target.Some? && exists list ::
        Enumerates(list, Merged(st)) && Encodable(list) && target.value == codec.encode(list)
    }

    ghost function Now(saver: Saver, saved: Option<Saved>): World
      reads this, mem
    {
      World(mem.Contents(), [mem.Contents()], saver, target, tmp, saved)
    }

    method ListAll() returns (list: seq<Metric>)
      ensures Enumerates(list, Merged(mem.Contents()))
    {
      var m := mem.GetAllMetrics();
      list := [];
      var todo := m.Keys;
      while todo != {}
        invariant forall id :: id in todo ==> id in m
        invariant forall x :: x in list ==> x.id in m && x.id !in todo && m[x.id] == x
        invariant forall id :: id in m && id !in todo ==> m[id] in list
        invariant forall i, j :: 0 <= i < j < |list| ==> list[i].id != list[j].id
        decreases |todo|
      {
        var id :| id in todo;
        list := list + [m[id]];
        todo := todo - {id};
      }
    }

    /** One save with nobody interfering. It succeeds exactly when the disk does and every
        gauge to be written is finite, and it is a path of the protocol above. */
    method SaveToFile(fault: Fault) returns (ok: bool, ghost end: World)
      modifies this
      ensures ok <==> fault.NoFault? && Savable(mem.Contents())
      ensures ok ==> SavedAs(mem.Contents())
      ensures !ok ==> target == old(target)
      ensures end == Now(Idle, end.saved) && Reaches(codec, old(Now(Idle, None)), end)
    {
      ghost var start := Now(Idle, None);
      ReachesItself(codec, start);
      var list := ListAll();
      SavableMeansEncodable(mem.Contents(), list);
      end := Go(codec, start, start, BeginSave(list));
      if fault.AtCreate? {
        end := Go(codec, start, end, CreateFails);
        return false, end;
      }
      tmp := Some([]);
      end := Go(codec, start, end, CreateTmp);
      ok, end := WriteAndRename(list, fault, start, end);
    }

    /** The rest of a save, once the temporary file is there. */
    method WriteAndRename(list: seq<Metric>, fault: Fault, ghost start: World, ghost now: World)
      returns (ok: bool, ghost end: World)
      requires now == Now(Writing(0, list, 0), None) && Reaches(codec, start, now) && !fault.AtCreate?
      modifies this
      ensures ok <==> fault.NoFault? && Encodable(list)
      ensures target == if ok then Some(codec.encode(list)) else old(target)
      ensures end == Now(Idle, end.saved) && Reaches(codec, start, end)
    {
      end := now;
      if !Encodable(list) {
        end := Go(codec, start, end, EncodeFails);
        return false, end;
      }
      var data := codec.encode(list);
      if fault.AtWrite? && fault.n < |data| {
        tmp := Some(data[..fault.n]);
        end := Go(codec, start, end, WriteFails(fault.n));
        return false, end;
      }
      tmp := Some(data);
      assert data[..|data|] == data;
      end := Go(codec, start, end, Write(|data|));
      if fault.AtClose? || fault.AtWrite? {
        end := Go(codec, start, end, CloseFails);
        return false, end;
      }
      end := Go(codec, start, end, CloseTmp);
      if fault.AtRename? {
        end := Go(codec, start, end, RenameFails);
        return false, end;
      }
      target, tmp := tmp, None;
      end := Go(codec, start, end, Rename);
      ok := true;
    }

    lemma DurableAfterSave(list: seq<Metric>)
      requires Lawful(codec) && Encodable(list) && Enumerates(list, Merged(mem.Contents()))
      requires target == Some(codec.encode(list))
      ensures Durable() && Readable()
    {
      SaveLoadRoundTrip(mem.Contents(), list);
    }

    lemma NotDurableWhenUnsavable()
      requires Readable() && !Savable(mem.Contents())
      ensures !Durable()
    {
      var st := mem.Contents();
      var id :| id in st.gauges && id !in st.counters && !st.gauges[id].Finite?;
      if Durable() {
        assert id in Visible(st).gauges;
        RestoredGaugesAreFinite(codec.decode(target.value).value, id);
      }
    }

    /** Without I/O failure a save makes the current state durable if JSON can hold it; if not,
        the file stays as it was, and a readable one then holds something else. */
    method Save(fault: Fault) returns (ok: bool)
      requires Lawful(codec)
      modifies this
      ensures ok <==> fault.NoFault? && Savable(mem.Contents())
      ensures ok ==> Durable() && Readable()
      ensures !ok ==> target == old(target)
      ensures old(Readable()) ==> Readable()
      ensures old(Readable()) && fault.NoFault? ==> (Durable() <==> Savable(mem.Contents()))
    {
      ghost var end;
      ok, end := SaveToFile(fault);
      if ok {
        ghost var list :| Enumerates(list, Merged(mem.Contents())) && Encodable(list) && target.value == codec.encode(list);
        DurableAfterSave(list);
      } else if Readable() && !Savable(mem.Contents()) {
        NotDurableWhenUnsavable();
      }
    }

    method UpdateGauge(id: string, value: Float64, fault: Fault)
      requires Lawful(codec)
      modifies this, mem
      ensures mem.Contents() == SetGauge(old(mem.Contents()), id, value)
      ensures syncWrite && fault.NoFault? && Savable(mem.Contents()) ==> Durable()
      ensures !(syncWrite && fault.NoFault? && Savable(mem.Contents())) ==> target == old(target)
      ensures old(Readable()) ==> Readable()
      ensures old(Readable()) && syncWrite && fault.NoFault? ==> (Durable() <==> Savable(mem.Contents()))
    {
      mem.UpdateGauge(id, value);
      if syncWrite {
        var _ := Save(fault);
      }
    }

    method UpdateCounter(id: string, delta: Int64, fault: Fault)
      requires Lawful(codec)
      modifies this, mem
      ensures mem.Contents() == AddCounter(old(mem.Contents()), id, delta)
      ensures syncWrite && fault.NoFault? && Savable(mem.Contents()) ==> Durable()
      ensures !(syncWrite && fault.NoFault? && Savable(mem.Contents())) ==> target == old(target)
      ensures old(Readable()) ==> Readable()
      ensures old(Readable()) && syncWrite && fault.NoFault? ==> (Durable() <==> Savable(mem.Contents()))
    {
      mem.UpdateCounter(id, delta);
      if syncWrite {
        var _ := Save(fault);
      }
    }

    /** An empty batch saves nothing; otherwise a failed save is the only error. */
    method UpdateBatch(metrics: seq<Metric>, fault: Fault) returns (ok: bool)
      requires Lawful(codec)
      modifies this, mem
      ensures mem.Contents() == Fold(old(mem.Contents()), metrics)
      ensures ok <==> metrics == [] || !syncWrite || (fault.NoFault? && Savable(mem.Contents()))
      ensures ok && metrics != [] && syncWrite ==> Durable()
      ensures !(ok && metrics != [] && syncWrite) ==> target == old(target)
      ensures old(Readable()) ==> Readable()
      ensures old(Readable()) && metrics != [] && syncWrite && fault.NoFault? ==> (Durable() <==> Savable(mem.Contents()))
    {
      if |metrics| == 0 {
        return true;
      }
      mem.UpdateBatch(metrics);
      ok := true;
      if syncWrite {
        ok := Save(fault);
      }
    }

    /** The stop hook, after the ticker goroutine has gone: one last save in every mode. */
    method OnStop(fault: Fault) returns (ok: bool)
      requires Lawful(codec)
      modifies this
      ensures ok <==> fault.NoFault? && Savable(mem.Contents())
      ensures ok ==> Durable()
      ensures !ok ==> target == old(target)
      ensures old(Readable()) && fault.NoFault? ==> (Durable() <==> Savable(mem.Contents()))
    {
      ok := Save(fault);
    }

    /** Into an empty storage, a readable file gives back what it shows of the saved state. */
    method LoadFromFile() returns (r: Result<(), LoadError>)
      modifies mem
      ensures target.None? ==> r == Err(NotExist) && mem.Contents() == old(mem.Contents())
      ensures target.Some? && codec.decode(target.value).None? ==> r == Err(BadFile) && mem.Contents() == old(mem.Contents())
      ensures target.Some? && codec.decode(target.value).Some? ==>
        r == Ok(()) && mem.Contents() == Fold(old(mem.Contents()), codec.decode(target.value).value)
    {
      if target.None? {
        return Err(NotExist);
      }
      var decoded := codec.decode(target.value);
      if decoded.None? {
        return Err(BadFile);
      }
      var list := decoded.value;
      for i := 0 to |list|
        invariant mem.Contents() == Fold(old(mem.Contents()), list[..i])
      {
        var m := list[i];
        assert list[..i + 1][..i] == list[..i];
        if m.mtype == "gauge" {
          if m.value.Some? {
            mem.UpdateGauge(m.id, m.value.value);
          }
        } else if m.mtype == "counter" {
          if m.delta.Some? {
            mem.UpdateCounter(m.id, m.delta.value);
          }
        }
      }
      assert list[..|list|] == list;
      r := Ok(());
    }
  }

  /** What a file gives a storage that loads it: nothing if there is none, or none that can be read. */
  function Shown(codec: Codec, target: Option<seq<Byte>>): State {
    if target.Some? && codec.decode(target.value).Some? then Restored(codec.decode(target.value).value) else EMPTY
  }

  /** A new process over what the disk holds; an unreadable file keeps it from starting. */
  method NewFileStorage(codec: Codec, syncWrite: bool, restore: bool, target: Option<seq<Byte>>, tmp: Option<seq<Byte>>)
    returns (r: Result<FileBackedStorage, LoadError>)
    ensures r.Err? <==> restore && target.Some? && codec.decode(target.value).None?
    ensures r.Ok? ==>
      && fresh(r.value) && fresh(r.value.mem)
      && r.value.codec == codec && r.value.syncWrite == syncWrite && r.value.target == target && r.value.tmp == tmp
      && r.value.mem.Contents() == if restore then Shown(codec, target) else EMPTY
  {
    var ms := new MemStorage();
    var s := new FileBackedStorage(ms, codec, syncWrite, target, tmp);
    if restore {
      var loaded := s.LoadFromFile();
      if loaded.Err? && loaded.error != NotExist {
        return Err(loaded.error);
      }
    }
    r := Ok(s);
  }
}
