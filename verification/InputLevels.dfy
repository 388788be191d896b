/** The stack of input levels of Src/input.c, as recorded by inpush.  Entry k is
    what inpush saved of level k: its buffer, how far it was read, its flags, and
    the alias whose text level k + 1 is.  Entries stay in the array after they are
    popped, until another inpush. */
module InputLevels {

  /** INP_FREE, INP_ALIAS, INP_HIST, INP_CONT, INP_ALCONT, INP_LINENO. */
  datatype Flags = Flags(free: bool, alias: bool, hist: bool, cont: bool, alcont: bool, lineno: bool)

  const NONE := Flags(false, false, false, false, false, false)

  /** alias is -1 for NULL. */
  datatype Entry = Entry(buf: string, ptr: nat, left: nat, ct: int, flags: Flags, alias: int)

  ghost function Rest(buf: string, ptr: nat): string {
    if ptr <= |buf| then buf[ptr..] else ""
  }

  /** What is left of level k and the levels it continues on. */
  ghost function Left(stk: seq<Entry>, k: nat): string
    requires k < |stk|
  {
    Rest(stk[k].buf, stk[k].ptr) + Under(stk, k, stk[k].flags.cont)
  }

  /** What a level above k others continues on. */
  ghost function Under(stk: seq<Entry>, k: nat, cont: bool): string
    requires k <= |stk|
  {
    if cont && k > 0 then Left(stk, k - 1) else ""
  }

  ghost predicate EntryOk(stk: seq<Entry>, k: nat)
    requires k < |stk|
  {
    var e := stk[k];
    e.ptr + e.left == |e.buf| && e.ct == |Left(stk, k)| && (e.flags.cont ==> k > 0) && e.alias >= -1 &&
    (k > 0 && stk[k - 1].flags.alcont ==> e.flags.cont)
  }

  ghost predicate EntriesOk(stk: seq<Entry>) {
    forall k :: 0 <= k < |stk| ==> EntryOk(stk, k)
  }

  /** The alias that the level above entry e is the text of. */
  ghost predicate From(e: Entry, a: int) {
    e.flags.alcont && e.alias == a && a >= 0
  }

  /** No alias is on the stack twice. */
  ghost predicate Once(stk: seq<Entry>) {
    forall j, k, a {:trigger From(stk[j], a), From(stk[k], a)} :: 0 <= j < k < |stk| && From(stk[j], a) ==>
    !From(stk[k], a)
  }

  /** The aliases that one of the first n pushed levels comes from. */
  ghost function Sources(stk: seq<Entry>, n: nat): set<int>
    requires n <= |stk|
  {
    if n == 0 then {}
    else Sources(stk, n - 1) + if stk[n - 1].flags.alcont && stk[n - 1].alias >= 0 then {stk[n - 1].alias} else {}
  }

  lemma {:induction false} SourcesAre(stk: seq<Entry>, n: nat, a: int)
    requires n <= |stk|
    ensures a in Sources(stk, n) <==> exists k :: 0 <= k < n && From(stk[k], a)
  {
    if n > 0 {
      SourcesAre(stk, n - 1, a);
      if a in Sources(stk, n) && a !in Sources(stk, n - 1) { assert From(stk[n - 1], a); }
    }
  }

  /** Popping an entry takes its alias away. */
  lemma SourcesPop(stk: seq<Entry>, n: nat)
    requires 0 < n <= |stk| && Once(stk)
    ensures Sources(stk, n - 1) == if stk[n - 1].flags.alcont then Sources(stk, n) - {stk[n - 1].alias}
      else Sources(stk, n)
  {
    var a := stk[n - 1].alias;
    SourcesAre(stk, n - 1, a);
    if From(stk[n - 1], a) {
      forall k | 0 <= k < n - 1 ensures !From(stk[k], a) {}
    }
    SourcesPositive(stk, n - 1);
  }

  lemma {:induction false} SourcesPositive(stk: seq<Entry>, n: nat)
    requires n <= |stk|
    ensures forall a :: a in Sources(stk, n) ==> a >= 0
  {
    if n > 0 { SourcesPositive(stk, n - 1); }
  }

  /** Only the entries below matter. */
  lemma {:induction false} LeftPrefix(stk: seq<Entry>, stk': seq<Entry>, k: nat)
    requires k < |stk| && k < |stk'| && stk'[..k + 1] == stk[..k + 1]
    ensures Left(stk', k) == Left(stk, k)
  {
    assert stk'[k] == stk'[..k + 1][k] && stk[k] == stk[..k + 1][k];
    if k > 0 {
      assert stk'[..k] == stk'[..k + 1][..k] && stk[..k] == stk[..k + 1][..k];
      LeftPrefix(stk, stk', k - 1);
    }
  }

  lemma {:induction false} SourcesPrefix(stk: seq<Entry>, stk': seq<Entry>, n: nat)
    requires n <= |stk| && n <= |stk'| && stk'[..n] == stk[..n]
    ensures Sources(stk', n) == Sources(stk, n)
  {
    if n > 0 {
      assert stk'[n - 1] == stk'[..n][n - 1] && stk[n - 1] == stk[..n][n - 1];
      assert stk'[..n - 1] == stk'[..n][..n - 1] && stk[..n - 1] == stk[..n][..n - 1];
      SourcesPrefix(stk, stk', n - 1);
    }
  }

  /** A level is recorded on top of the first t entries. */
  lemma Record(stk: seq<Entry>, t: nat, e: Entry)
    requires EntriesOk(stk) && Once(stk) && t <= |stk|
    requires e.ptr + e.left == |e.buf| && (e.flags.cont ==> t > 0) && e.alias >= -1
    requires t > 0 && stk[t - 1].flags.alcont ==> e.flags.cont
    requires e.ct == |Rest(e.buf, e.ptr) + Under(stk, t, e.flags.cont)|
    requires e.flags.alcont ==> e.alias !in Sources(stk, t)
    ensures var stk' := stk[..t] + [e];
            EntriesOk(stk') && Once(stk') && Left(stk', t) == Rest(e.buf, e.ptr) + Under(stk, t, e.flags.cont) &&
            Sources(stk', t) == Sources(stk, t)
  {
    var stk' := stk[..t] + [e];
    assert stk'[..t] == stk[..t];
    SourcesPrefix(stk, stk', t);
    RecordOk(stk, t, e);
    RecordOnce(stk, t, e);
    if t > 0 { LeftPrefix(stk, stk', t - 1); }
  }

  lemma RecordOk(stk: seq<Entry>, t: nat, e: Entry)
    requires EntriesOk(stk) && t <= |stk|
    requires e.ptr + e.left == |e.buf| && (e.flags.cont ==> t > 0) && e.alias >= -1
    requires t > 0 && stk[t - 1].flags.alcont ==> e.flags.cont
    requires e.ct == |Rest(e.buf, e.ptr) + Under(stk, t, e.flags.cont)|
    ensures EntriesOk(stk[..t] + [e])
  {
    var stk' := stk[..t] + [e];
    if t > 0 { assert stk'[..t] == stk[..t]; LeftPrefix(stk, stk', t - 1); }
    forall k | 0 <= k < |stk'| ensures EntryOk(stk', k) {
      if k < t {
        assert EntryOk(stk, k);
        assert stk'[..k + 1] == stk[..k + 1];
        LeftPrefix(stk, stk', k);
      }
    }
  }

  lemma RecordOnce(stk: seq<Entry>, t: nat, e: Entry)
    requires Once(stk) && t <= |stk| && (e.flags.alcont ==> e.alias !in Sources(stk, t))
    ensures Once(stk[..t] + [e])
  {
    var stk' := stk[..t] + [e];
    forall j, k, a | 0 <= j < k < |stk'| && From(stk'[j], a) ensures !From(stk'[k], a) {
      assert From(stk[j], a);
      if k == t { SourcesAre(stk, t, a); } else { assert stk'[k] == stk[k]; }
    }
  }

  // ----- Going back up over popped levels -----

  /** Entry k was pushed for an alias (or history) with nothing left to read. */
  predicate Drained(e: Entry) {
    e.flags.alcont && e.left == 0
  }

  /** Levels that were popped with nothing left add nothing. */
  lemma {:induction false} LeftDrained(stk: seq<Entry>, t: nat, n: nat)
    requires EntriesOk(stk) && t < n <= |stk| && stk[t].flags.alcont && forall k :: t < k < n ==> Drained(stk[k])
    ensures Left(stk, n - 1) == Left(stk, t)
    decreases n
  {
    if n > t + 1 {
      LeftDrained(stk, t, n - 1);
      assert EntryOk(stk, n - 1);
      assert Rest(stk[n - 1].buf, stk[n - 1].ptr) == "";
    }
  }
}
