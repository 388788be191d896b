/** The character stream of Src/input.c: ingetc, inungetc, inpush, inpoptop, inpop
    and inputsetline over a stack of levels. */
module InputStream {
  import opened InputLevels

  /** Where the reading is: level, buffer, position, point of the last pop, flags. */
  datatype Point = Point(top: nat, buf: string, ptr: nat, push: int, flags: Flags)

  class Input {
    /** The current level: buffer, how far it is read, how much is left. */
    var inbuf: string
    var inbufptr: nat
    var inbufleft: nat
    /** inbufpush as a position in inbuf, or -1 if it points elsewhere. */
    var inbufpush: int
    var inbufct: int
    var inbufflags: Flags
    var instack: seq<Entry>
    var instacktop: nat
    var lexstop: bool
    var strin: bool
    /** The lines that the input has still to give when strin is not set. */
    var lines: seq<string>
    /** The aliases that are marked as in use; their texts. */
    var inuse: set<int>
    const texts: seq<string>
    var inalmore: bool
    /** The aliases whose texts have ended so far. */
    ghost var ended: seq<int>
    /** instacktop after the last inpush: entries from there on mean nothing. */
    ghost var high: nat

    ghost predicate Valid()
      reads this
    {
      instacktop <= high < |instack| && !instack[high].flags.alcont &&
      EntriesOk(instack[..high]) && Once(instack[..high]) &&
      inbufptr + inbufleft == |inbuf| && inbufct == |Remaining()| &&
      (inbufflags.cont ==> instacktop > 0) &&
      (instacktop > 0 && instack[instacktop - 1].flags.alcont ==> inbufflags.cont) &&
      (inbufflags.alcont && inbufpush >= 0 ==> instacktop < high && Reopens(instack[instacktop])) &&
      inuse == Sources(instack[..high], instacktop) &&
      AliasesOk() &&
      (forall l :: l in lines ==> l != "")
    }

    /** The entry above the current level is what was recorded of it. */
    ghost predicate Reopens(e: Entry)
      reads this
    {
      e.buf == inbuf && e.ptr == inbufpush && e.flags == inbufflags
    }

    /** The remaining input: what is left of the current level, and of the levels
        it continues on. */
    ghost function Remaining(): string
      reads this
    {
      Rest(inbuf, inbufptr) + if instacktop <= high <= |instack| then
      Under(instack[..high], instacktop, inbufflags.cont) else ""
    }

    constructor (texts: seq<string>, strin: bool, lines: seq<string>)
      requires forall l :: l in lines ==> l != ""
      ensures Valid() && Remaining() == "" && inuse == {} && this.texts == texts && this.strin == strin &&
        this.lines == lines && !lexstop && !inalmore
      ensures instacktop == high == 0
    {
      this.texts, this.strin, this.lines := texts, strin, lines;
      inbuf, inbufptr, inbufleft, inbufpush, inbufct, inbufflags := "", 0, 0, -1, 0, NONE;
      instack, instacktop, high := [Entry("", 0, 0, 0, NONE, -1)], 0, 0;
      lexstop, inuse, inalmore, ended := false, {}, false, [];
    }

    ghost function Here(): Point
      reads this
    {
      Point(instacktop, inbuf, inbufptr, inbufpush, inbufflags)
    }

    /** inputsetline: a string becomes the current level. */
    method Inputsetline(str: string, flags: Flags)
      modifies this`inbuf, this`inbufptr, this`inbufleft, this`inbufct, this`inbufflags
      ensures inbuf == str && inbufptr == 0 && inbufleft == |str| && inbufflags == flags
      ensures inbufct == if flags.cont then old(inbufct) + |str| else |str|
    {
      inbuf, inbufptr := str, 0;
      inbufleft := |inbuf|;
      if flags.cont { inbufct := inbufct + inbufleft; } else { inbufct := inbufleft; }
      inbufflags := flags;
    }

    ghost predicate AliasesOk()
      reads this
    {
      forall k :: 0 <= k < |instack| ==> -1 <= instack[k].alias < |texts|
    }

    /** The current level is saved, and the entry above it stops inungetc. */
    method SaveLevel(top: Entry)
      requires instacktop < |instack| && AliasesOk() && -1 <= top.alias < |texts|
      modifies this`instack, this`instacktop, this`high
      ensures instacktop == high == old(instacktop) + 1 && high < |instack| && AliasesOk() &&
        !instack[high].flags.alcont
      ensures instack[..high] == old(instack)[..old(instacktop)] + [top]
    {
      instack := instack[instacktop := top];
      instacktop := instacktop + 1;
      if instacktop == |instack| { instack := instack + seq(4, _ => Entry("", 0, 0, 0, NONE, -1)); }
      instack := instack[instacktop := instack[instacktop].(flags := NONE)];
      high := instacktop;
    }

    /** inpush: a string is put on a new level; alias is the alias it is the text
        of, or -1. */
    method Inpush(str: string, flags: Flags, alias: int) returns (ghost e: Entry)
      requires Valid() && -1 <= alias < |texts| && !flags.alcont
      requires alias >= 0 ==> flags.alias && alias !in inuse
      modifies this`inbuf, this`inbufptr, this`inbufleft, this`inbufct, this`inbufflags, this`instack, this`instacktop,
        this`high, this`inbufpush, this`inuse
      ensures Valid() && inbufptr == 0 && inbufpush == -1 && inbuf == str && instacktop == high == old(instacktop) + 1
      ensures Remaining() == str + if flags.cont || flags.alias || flags.hist then old(Remaining()) else ""
      ensures inuse == if alias >= 0 then old(inuse) + {alias} else old(inuse)
      ensures instack[..high] == old(instack)[..old(instacktop)] + [e]
      ensures e.flags.alcont == (flags.alias || flags.hist) && (flags.alias || flags.hist ==> e.alias == alias)
      ensures e.buf == old(inbuf) && e.ptr == old(inbufptr) && e.left == old(inbufleft) &&
        e.flags.cont == old(inbufflags.cont)
      ensures inbufflags.cont == (flags.cont || flags.alias || flags.hist) && !inbufflags.alcont
    {
      hide Valid, Rest, Under, EntriesOk, Once, Sources;
      ValidParts(this);
      var fl := flags;
      var below := inbufflags.(alcont := false);
      var top := Entry(inbuf, inbufptr, inbufleft, inbufct, below, instack[instacktop].alias);
      if flags.alias || flags.hist {
        fl := fl.(cont := true, alias := true);
        top := top.(flags := below.(alcont := true), alias := alias);
      } else if below.alias && flags.cont {
        fl := fl.(alias := true);
      }
      assert instack[..high][..instacktop] == instack[..instacktop];
      PushFacts(instack[..high], instacktop, top, str);
      SaveLevel(top);
      e := top;
      if top.flags.alcont && alias >= 0 { inuse := inuse + {alias}; }
      EnterLevel(str, fl);
    }

    /** The new level becomes the current one. */
    method EnterLevel(str: string, fl: Flags)
      requires Stacked() && instacktop == high > 0 && !fl.alcont && (instack[high - 1].flags.alcont ==> fl.cont)
      requires inbufct == |Under(instack[..high], high, true)| && Under(instack[..high], high, false) == "" &&
        Rest(str, 0) == str
      modifies this`inbuf, this`inbufptr, this`inbufleft, this`inbufct, this`inbufflags, this`inbufpush
      ensures Valid() && inbuf == str && inbufptr == 0 && inbufpush == -1 && inbufflags == fl
      ensures Remaining() == str + Under(instack[..high], high, fl.cont)
    {
      hide Rest, Under, EntriesOk, Once, Sources;
      inbufpush := -1;
      Inputsetline(str, fl);
    }

    /** What inpoptop finds in the entry below. */
    ghost predicate Popped(e: Entry)
      reads this
    {
      inbuf == e.buf && inbufptr == e.ptr && inbufpush == e.ptr && inbufleft == e.left && inbufflags == e.flags
    }

    /** The text of alias a has ended. */
    method EndAlias(a: int)
      requires 0 <= a < |texts|
      modifies this`inuse, this`inalmore, this`ended
      ensures inuse == old(inuse) - {a} && ended == old(ended) + [a] && inalmore == MoreAfter(texts, old(inalmore), [a])
    {
      inuse := inuse - {a};
      assert a in [a];
      if texts[a] != "" && texts[a][|texts[a]| - 1] == ' ' { inalmore := true; }
      ended := ended + [a];
    }

    /** inpoptop: back to the level below. */
    method Inpoptop()
      requires Valid() && instacktop > 0
      modifies this`inbuf, this`inbufptr, this`inbufleft, this`inbufct, this`inbufflags, this`instacktop,
        this`inbufpush, this`inuse, this`inalmore, this`ended
      ensures Valid() && instacktop == old(instacktop) - 1 && Popped(instack[instacktop])
      ensures Remaining() == Under(instack[..high], old(instacktop), true)
      ensures ended == old(ended) + AliasOf(instack[instacktop])
      ensures inalmore == MoreAfter(texts, old(inalmore), AliasOf(instack[instacktop]))
    {
      hide Valid, Rest, Under, EntriesOk, Once, Sources, MoreAfter;
      ValidParts(this);
      PopFacts(instack[..high], instacktop);
      instacktop := instacktop - 1;
      var e := instack[instacktop];
      assert instack[..high][instacktop] == e;
      inbuf, inbufptr, inbufpush, inbufleft, inbufct, inbufflags := e.buf, e.ptr, e.ptr, e.left, e.ct, e.flags;
      MoreTwice(texts, inalmore, [], []);
      if inbufflags.alcont && e.alias >= 0 { EndAlias(e.alias); }
      PoppedValid(this);
    }

    /** inpop: the top level and all it continues on are removed, which must have
        been pushed. */
    method Inpop()
      requires Valid() && Base(instack[..high], instacktop, inbufflags.cont) > 0
      modifies this
      ensures Valid() && instack == old(instack) && high == old(high)
      ensures instacktop == Base(old(instack[..high]), old(instacktop), old(inbufflags.cont)) - 1
    {
      hide Valid, Remaining;
      PopDepth(this);
      var remcont := inbufflags.cont;
      ghost var base := Base(instack[..high], instacktop, inbufflags.cont);
      Inpoptop();
      while remcont
        invariant Valid() && instack == old(instack) && high == old(high) && instacktop <= high < |instack|
        invariant if remcont then base > 0 && Base(instack[..high], instacktop, inbufflags.cont) == base
          else instacktop == base - 1
        decreases remcont, instacktop
      {
        PopDepth(this);
        remcont := inbufflags.cont;
        Inpoptop();
      }
    }

    /** The next character of the current level. */
    method TakeChar() returns (c: char)
      requires Valid() && inbufleft > 0
      modifies this`inbufleft, this`inbufct, this`inbufptr
      ensures Valid() && [c] + Remaining() == old(Remaining()) && Read(c) && inbufptr == old(inbufptr) + 1
    {
      hide Rest, Left, EntriesOk, Once, Sources;
      RestNext(inbuf, inbufptr);
      c := inbuf[inbufptr];
      inbufleft, inbufct, inbufptr := inbufleft - 1, inbufct - 1, inbufptr + 1;
    }

    /** inputline, when there is a line. */
    method Inputline()
      requires Valid() && lines != [] && !inbufflags.cont
      modifies this`inbuf, this`inbufptr, this`inbufleft, this`inbufct, this`inbufflags, this`inbufpush, this`lines
      ensures Valid() && Remaining() == old(lines)[0] && lines == old(lines)[1..] && inbufleft > 0 &&
        inbufflags == NONE.(free := true)
    {
      hide Rest, Left, EntriesOk, Once, Sources;
      assert lines[0] in lines && forall l :: l in lines[1..] ==> l in lines;
      Inputsetline(lines[0], NONE.(free := true));
      inbufpush := -1;
      RestStart(inbuf);
      lines := lines[1..];
    }

    /** ingetc: the next character of the remaining input.  Levels that are used up
        are popped.  At the end of a string lexstop is set; otherwise a line is read. */
    method Ingetc() returns (c: char)
      requires Valid()
      modifies this
      ensures Valid() && instack == old(instack) && high == old(high) && strin == old(strin) &&
        instacktop <= old(instacktop)
      ensures old(lexstop) ==> c == ' ' && Remaining() == old(Remaining()) && lexstop && inuse == old(inuse)
      ensures !old(lexstop) ==> Got(c, old(Remaining()), old(lines))
      ensures !old(lexstop) && old(Remaining()) != "" ==> Passed(old(Here()))
      ensures !old(lexstop) && old(Remaining()) == "" ==>
        instacktop == Base(old(instack[..high]), old(instacktop), old(inbufflags.cont))
      ensures !lexstop && old(Remaining()) == "" ==> inbufflags == NONE.(free := true)
      ensures Ended(old(ended), old(inalmore), old(instacktop))
    {
      hide Valid, Remaining, Arrived, Passed, Under, Ended, OnBase, Base;
      TopInStack(this);
      NoneEnded(this);
      if lexstop { return ' '; }
      ghost var base := Base(instack[..high], instacktop, inbufflags.cont);
      ghost var h := Here();
      ghost var newLine := false;
      ArrivedStart(this);
      BaseHere(this);
      while true
        invariant Valid() && instack == old(instack) && high == old(high) && strin == old(strin) && !lexstop
        invariant instacktop <= h.top <= high < |instack|
        invariant Ended(old(ended), old(inalmore), h.top)
        invariant !newLine ==> lines == old(lines) && Remaining() == old(Remaining()) && Arrived(h)
        invariant if newLine then instacktop == base else OnBase(base)
        invariant newLine ==>
          !strin && old(lines) != [] && old(Remaining()) == "" && Remaining() == old(lines)[0] &&
          lines == old(lines)[1..] && inbufleft > 0 && inbufflags == NONE.(free := true)
        decreases if inbufleft > 0 then 0 else 1, instacktop
      {
        LevelFacts(this);
        if !newLine && !inbufflags.cont { AtBase(this, base); }
        if inbufleft > 0 {
          c := StepRead(h);
          return;
        }
        if inbufflags.cont {
          StepDown(h, old(ended), old(inalmore), base);
          continue;
        }
        if strin {
          SetLexstop();
          return ' ';
        }
        if lines == [] {
          SetLexstop();
          return ' ';
        }
        Inputline();
        newLine := true;
      }
    }

    /** The next character, after levels that had nothing left. */
    method StepRead(ghost h: Point) returns (c: char)
      requires Valid() && inbufleft > 0
      modifies this`inbufleft, this`inbufct, this`inbufptr
      ensures Valid() && [c] + Remaining() == old(Remaining()) && Read(c)
      ensures old(Arrived(h)) ==> Passed(h)
    {
      hide Valid, Rest, Under;
      c := TakeChar();
    }

    /** One level is popped that has nothing left. */
    method StepDown(ghost h: Point, ghost e: seq<int>, ghost more: bool, ghost base: nat)
      requires Valid() && inbufleft == 0 && inbufflags.cont && instacktop > 0 && instacktop <= h.top <= high < |instack|
      modifies this`inbuf, this`inbufptr, this`inbufleft, this`inbufct, this`inbufflags, this`instacktop,
        this`inbufpush, this`inuse, this`inalmore, this`ended
      ensures Valid() && Remaining() == old(Remaining()) && instacktop == old(instacktop) - 1
      ensures old(Ended(e, more, h.top)) ==> Ended(e, more, h.top)
      ensures old(Arrived(h)) ==> Arrived(h)
      ensures old(OnBase(base)) ==> OnBase(base)
    {
      hide Valid, Rest, Under, AliasOf, MoreAfter, Gone;
      LevelFacts(this);
      GoneNext(instack, instacktop, h.top, texts, more);
      Inpoptop();
    }

    method NotStopped()
      requires Valid()
      modifies this`lexstop
      ensures Valid() && !lexstop && Remaining() == old(Remaining())
    {
      lexstop := false;
    }

    method SetLexstop()
      requires Valid()
      modifies this`lexstop
      ensures Valid() && lexstop && Remaining() == old(Remaining())
    {
      lexstop := true;
    }

    /** What ingetc gives, from what was left. */
    ghost predicate Got(c: char, rest: string, had: seq<string>)
      reads this
    {
      if rest != "" then !lexstop && [c] + Remaining() == rest && Read(c) && lines == had
      else if strin || had == [] then lexstop && c == ' ' && Remaining() == "" && !inbufflags.cont && lines == had
      else !lexstop && [c] + Remaining() == had[0] && lines == had[1..] && Read(c)
    }

    /** Back over the levels that were popped with nothing left to read, from the
        point where the last of them was popped. */
    method Reopen()
      requires Valid() && inbufptr == inbufpush && inbufflags.alcont
      modifies this`inbuf, this`inbufptr, this`inbufleft, this`inbufflags, this`instacktop, this`inuse, this`inbufpush
      ensures Valid() && Remaining() == old(Remaining()) && old(instacktop) < instacktop <= high && inbuf == "" &&
        inbufflags == NONE.(cont := true, alias := true)
      ensures forall j :: old(instacktop) < j < instacktop ==> Drained(instack[j])
      ensures instacktop == high || !Drained(instack[instacktop])
    {
      ReopenFacts(this);
      ghost var t, rest := instacktop, Remaining();
      hide Rest, Left, EntriesOk, Once, Sources, Under, Drained;
      ClimbUp();
      UnderDrained(instack[..high], t, instacktop);
      EmptyLevel(rest);
    }

    /** All that Valid says but for the current level. */
    ghost predicate Stacked()
      reads this
    {
      instacktop <= high < |instack| && !instack[high].flags.alcont && EntriesOk(instack[..high]) &&
      Once(instack[..high]) &&
      inuse == Sources(instack[..high], instacktop) && AliasesOk() && (forall l :: l in lines ==> l != "")
    }

    method EmptyLevel(ghost rest: string)
      requires Stacked() && instacktop > 0 && Under(instack[..high], instacktop, true) == rest && inbufct == |rest|
      modifies this`inbuf, this`inbufptr, this`inbufleft, this`inbufflags, this`inbufpush
      ensures Valid() && Remaining() == rest && inbuf == "" && inbufflags == NONE.(cont := true, alias := true)
    {
      hide Rest, Left, EntriesOk, Once, Sources, Under;
      RestStart("");
      inbufflags := NONE.(cont := true, alias := true);
      inbufleft := 0;
      inbuf, inbufptr, inbufpush := "", 0, -1;
    }

    /** The loop of inungetc: the aliases of the levels are in use again. */
    method ClimbUp()
      requires instacktop < high < |instack| && instack[instacktop].flags.alcont && !instack[high].flags.alcont
      requires inuse == Sources(instack[..high], instacktop)
      modifies this`instacktop, this`inuse
      ensures old(instacktop) < instacktop <= high && inuse == Sources(instack[..high], instacktop)
      ensures forall j :: old(instacktop) < j < instacktop ==> Drained(instack[j])
      ensures instacktop == high || !Drained(instack[instacktop])
    {
      hide Sources;
      if instack[instacktop].alias >= 0 { inuse := inuse + {instack[instacktop].alias}; }
      SourcesNext(instack[..high], instacktop);
      instacktop := instacktop + 1;
      while instack[instacktop].flags.alcont && instack[instacktop].left == 0
        invariant old(instacktop) < instacktop <= high
        invariant forall j :: old(instacktop) < j < instacktop ==> Drained(instack[j])
        invariant inuse == Sources(instack[..high], instacktop)
        decreases high - instacktop
      {
        if instack[instacktop].alias >= 0 { inuse := inuse + {instack[instacktop].alias}; }
        SourcesNext(instack[..high], instacktop);
        instacktop := instacktop + 1;
      }
    }

    /** inungetc: the character read last is put back (or c, at the beginning of a
        buffer).  At the point where alias levels were popped, they are put back. */
    method Inungetc(c: char)
      requires Valid()
      modifies this
      ensures Valid() && lexstop == old(lexstop) && strin == old(strin) && lines == old(lines)
      ensures inalmore == old(inalmore) && ended == old(ended)
      ensures old(lexstop) ==>
        Remaining() == old(Remaining()) && Here() == old(Here()) && instack == old(instack) && high == old(high)
      ensures !old(lexstop) ==>
        Remaining() == [if old(inbufptr) > 0 then old(inbuf[inbufptr - 1]) else c] + old(Remaining())
      ensures !old(lexstop) && old(inbufptr) > 0 ==> high == old(high) && instack == old(instack)
      ensures !old(lexstop) && old(inbufptr) > 0 ==> PutBack(old(Here()))
    {
      hide Valid, Remaining;
      if !lexstop {
        if inbufptr != 0 {
          GiveChar();
        } else {
          ghost var e := Inpush([c], NONE.(free := true, cont := true), -1);
        }
        if inbufptr == inbufpush && inbufflags.alcont { Reopen(); }
      }
    }

    /** A character that is read and put back leaves the remaining input as it was, in
        every state of the stack; inbufct is its length throughout. */
    method Peek() returns (c: char)
      requires Valid() && !lexstop && Remaining() != ""
      modifies this
      ensures Valid() && !lexstop && Remaining() == old(Remaining()) && c == Remaining()[0] && inbufct == old(inbufct)
    {
      CountIs(this);
      hide Valid, Remaining;
      ghost var rest := Remaining();
      c := Ingetc();
      assert ([c] + Remaining())[0] == c;
      Inungetc(c);
      CountIs(this);
    }

    /** The level after a character was put back: one further back, or, from the
        point where levels were popped, on top of them again. */
    ghost predicate PutBack(h: Point)
      requires instacktop <= high < |instack|
      reads this
    {
      if h.ptr - 1 == h.push && h.flags.alcont then
        h.top < instacktop && inbuf == "" && inbufflags == NONE.(cont := true, alias := true) &&
        (forall j :: h.top < j < instacktop ==> Drained(instack[j])) &&
        (instacktop == high || !Drained(instack[instacktop]))
      else h.ptr > 0 && Here() == h.(ptr := h.ptr - 1)
    }

    method GiveChar()
      requires Valid() && inbufptr > 0
      modifies this`inbufleft, this`inbufct, this`inbufptr
      ensures Valid() && inbufptr == old(inbufptr) - 1 < |inbuf| && Remaining() == [inbuf[inbufptr]] + old(Remaining())
    {
      hide Rest, Left, EntriesOk, Once, Sources;
      RestNext(inbuf, inbufptr - 1);
      inbufptr, inbufct, inbufleft := inbufptr - 1, inbufct + 1, inbufleft + 1;
    }

    /** Nothing was read since h; levels with nothing left were popped. */
    ghost predicate Arrived(h: Point)
      reads this
    {
      if instacktop == h.top then Here() == h
      else
        instacktop < h.top <= |instack| && h.flags.cont && h.ptr >= |h.buf| && Popped(instack[instacktop]) &&
        PassedOver(instack, instacktop, h.top)
    }

    /** The current level and those it continues on end at level base. */
    ghost predicate OnBase(base: nat)
      reads this`instack, this`high, this`instacktop, this`inbufflags
    {
      instacktop <= high <= |instack| && Base(instack[..high], instacktop, inbufflags.cont) == base
    }

    /** Since the top was t0, the texts of the aliases of the levels popped have ended. */
    ghost predicate Ended(e: seq<int>, more: bool, t0: nat)
      reads this`ended, this`inalmore, this`instack, this`instacktop
    {
      ended == e + Gone(instack, instacktop, t0) &&
      inalmore == MoreAfter(texts, more, Gone(instack, instacktop, t0))
    }

    /** One character was read since then. */
    ghost predicate Passed(h: Point)
      reads this
    {
      if instacktop == h.top then Here() == h.(ptr := h.ptr + 1)
      else (instacktop < h.top <= |instack| && h.flags.cont && h.ptr >= |h.buf| && inbufpush >= 0 &&
            inbufptr == inbufpush + 1 &&
            inbufflags == instack[instacktop].flags && inbuf == instack[instacktop].buf &&
            inbufpush == instack[instacktop].ptr &&
            PassedOver(instack, instacktop, h.top))
    }

    /** The character was read from the current level. */
    ghost predicate Read(c: char)
      reads this
    {
      0 < inbufptr <= |inbuf| && inbuf[inbufptr - 1] == c
    }
  }

  /** The alias whose text has ended when the level above e is popped. */
  function AliasOf(e: Entry): seq<int> {
    if e.flags.alcont && e.alias >= 0 then [e.alias] else []
  }

  /** The aliases whose texts ended when the levels from t0 down to t were popped. */
  ghost function Gone(stk: seq<Entry>, t: nat, t0: nat): seq<int>
    decreases t0 - t
  {
    if t < t0 <= |stk| then Gone(stk, t + 1, t0) + AliasOf(stk[t]) else []
  }

  /** The next word may be an alias too: it was so, or the text of one of them ended with
      a blank. */
  ghost predicate MoreAfter(texts: seq<string>, more: bool, gone: seq<int>) {
    more || exists a :: a in gone && 0 <= a < |texts| && EndsBlank(texts[a])
  }

  predicate EndsBlank(s: string) {
    s != "" && s[|s| - 1] == ' '
  }

  lemma MoreTwice(texts: seq<string>, more: bool, a: seq<int>, b: seq<int>)
    ensures MoreAfter(texts, MoreAfter(texts, more, a), b) == MoreAfter(texts, more, a + b)
    ensures MoreAfter(texts, more, []) == more
  {
    if MoreAfter(texts, more, a + b) && !more {
      var x :| x in a + b && 0 <= x < |texts| && EndsBlank(texts[x]);
    }
    if x :| x in a && 0 <= x < |texts| && EndsBlank(texts[x]) { assert x in a + b; }
    if x :| x in b && 0 <= x < |texts| && EndsBlank(texts[x]) { assert x in a + b; }
  }

  lemma NoneEnded(p: Input)
    ensures p.Ended(p.ended, p.inalmore, p.instacktop)
  {
    MoreTwice(p.texts, p.inalmore, [], []);
  }

  lemma GoneNext(stk: seq<Entry>, t: nat, t0: nat, texts: seq<string>, more: bool)
    requires 0 < t <= t0 <= |stk|
    ensures Gone(stk, t - 1, t0) == Gone(stk, t, t0) + AliasOf(stk[t - 1])
    ensures MoreAfter(texts, MoreAfter(texts, more, Gone(stk, t, t0)), AliasOf(stk[t - 1])) ==
      MoreAfter(texts, more, Gone(stk, t - 1, t0))
  {
    MoreTwice(texts, more, Gone(stk, t, t0), AliasOf(stk[t - 1]));
  }

  /** The levels between t and t0 had nothing left, and continued on the next. */
  ghost predicate PassedOver(stk: seq<Entry>, t: nat, t0: nat) {
    forall j :: t < j < t0 <= |stk| ==> stk[j].left == 0 && stk[j].flags.cont
  }

  lemma ValidParts(p: Input)
    requires p.Valid()
    ensures p.Stacked() && p.inbufptr + p.inbufleft == |p.inbuf| && (p.inbufflags.cont ==> p.instacktop > 0)
    ensures p.instacktop > 0 && p.instack[p.instacktop - 1].flags.alcont ==> p.inbufflags.cont
    ensures p.Remaining() == Rest(p.inbuf, p.inbufptr) + Under(p.instack[..p.high], p.instacktop, p.inbufflags.cont)
    ensures p.inbufct == |p.Remaining()|
  {
    hide Rest, Under, EntriesOk, Once, Sources;
  }

  /** The level below is current again. */
  lemma PoppedValid(p: Input)
    requires p.Stacked() && p.instacktop < p.high && p.inbufct == p.instack[p.instacktop].ct
    requires p.Popped(p.instack[p.instacktop])
    ensures p.Valid()
    ensures p.Remaining() ==
      Rest(p.inbuf, p.inbufptr) + Under(p.instack[..p.high], p.instacktop, p.instack[p.instacktop].flags.cont)
  {
    hide Rest, Under, Once, Sources;
    assert EntryOk(p.instack[..p.high], p.instacktop);
  }

  lemma ReopenFacts(p: Input)
    requires p.Valid() && p.inbufptr == p.inbufpush && p.inbufflags.alcont
    ensures p.instacktop < p.high < |p.instack| && p.instack[p.instacktop].flags.alcont &&
      EntriesOk(p.instack[..p.high])
    ensures Left(p.instack[..p.high], p.instacktop) == p.Remaining()
  {}

  lemma UnderDrained(stk: seq<Entry>, t: nat, n: nat)
    requires EntriesOk(stk) && t < n <= |stk| && stk[t].flags.alcont && forall k :: t < k < n ==> Drained(stk[k])
    ensures Under(stk, n, true) == Left(stk, t) && Rest("", 0) == ""
  {
    hide EntriesOk, Left;
    LeftDrained(stk, t, n);
  }

  lemma SourcesNext(stk: seq<Entry>, n: nat)
    requires n < |stk| && stk[n].flags.alcont
    ensures Sources(stk, n + 1) == if stk[n].alias >= 0 then Sources(stk, n) + {stk[n].alias} else Sources(stk, n)
  {}

  lemma ArrivedStart(p: Input)
    ensures p.Arrived(p.Here())
  {}

  lemma CountIs(p: Input)
    requires p.Valid()
    ensures p.inbufct == |p.Remaining()|
  {}

  lemma TopInStack(p: Input)
    requires p.Valid()
    ensures p.instacktop <= p.high < |p.instack|
  {}

  lemma LevelFacts(p: Input)
    requires p.Valid()
    ensures p.inbufptr + p.inbufleft == |p.inbuf| && (p.inbufflags.cont ==> p.instacktop > 0)
    ensures p.inbufleft == 0 ==> p.Remaining() == Under(p.instack[..p.high], p.instacktop, p.inbufflags.cont)
    ensures p.inbufleft > 0 ==> p.Remaining() != ""
    ensures !p.inbufflags.cont ==> Under(p.instack[..p.high], p.instacktop, p.inbufflags.cont) == ""
  {}

  lemma RestNext(buf: string, ptr: nat)
    requires ptr < |buf|
    ensures Rest(buf, ptr) == [buf[ptr]] + Rest(buf, ptr + 1)
  {}

  lemma RestStart(buf: string)
    ensures Rest(buf, 0) == buf
  {}

  lemma PushFacts(stk: seq<Entry>, t: nat, e: Entry, str: string)
    requires EntriesOk(stk) && Once(stk) && t <= |stk|
    requires e.ptr + e.left == |e.buf| && (e.flags.cont ==> t > 0) && e.alias >= -1
    requires t > 0 && stk[t - 1].flags.alcont ==> e.flags.cont
    requires e.ct == |Rest(e.buf, e.ptr) + Under(stk, t, e.flags.cont)|
    requires e.flags.alcont && e.alias >= 0 ==> e.alias !in Sources(stk, t)
    ensures var stk' := stk[..t] + [e];
            EntriesOk(stk') && Once(stk') &&
            Under(stk', t + 1, true) == Rest(e.buf, e.ptr) + Under(stk, t, e.flags.cont) &&
            Under(stk', t + 1, false) == "" && Rest(str, 0) == str &&
            Sources(stk', t + 1) == Sources(stk, t) + if e.flags.alcont && e.alias >= 0 then {e.alias} else {}
  {
    hide EntriesOk, Once;
    SourcesPositive(stk, t);
    Record(stk, t, e);
  }

  /** The level that the levels from t down continue on. */
  ghost function Base(stk: seq<Entry>, t: nat, cont: bool): nat
    requires t <= |stk|
  {
    if cont && t > 0 then Base(stk, t - 1, stk[t - 1].flags.cont) else t
  }

  lemma BaseHere(p: Input)
    requires p.instacktop <= p.high <= |p.instack|
    ensures p.OnBase(Base(p.instack[..p.high], p.instacktop, p.inbufflags.cont))
  {}

  lemma AtBase(p: Input, base: nat)
    requires p.OnBase(base) && !p.inbufflags.cont
    ensures p.instacktop == base
  {}

  lemma PopDepth(p: Input)
    requires p.Valid() && Base(p.instack[..p.high], p.instacktop, p.inbufflags.cont) > 0
    ensures 0 < p.instacktop <= p.high < |p.instack|
    ensures p.inbufflags.cont ==>
      Base(p.instack[..p.high], p.instacktop - 1, p.instack[p.instacktop - 1].flags.cont) ==
      Base(p.instack[..p.high], p.instacktop, p.inbufflags.cont)
    ensures !p.inbufflags.cont ==> Base(p.instack[..p.high], p.instacktop, p.inbufflags.cont) == p.instacktop
  {}

  lemma PopFacts(stk: seq<Entry>, t: nat)
    requires EntriesOk(stk) && Once(stk) && 0 < t <= |stk|
    ensures Under(stk, t, true) == Rest(stk[t - 1].buf, stk[t - 1].ptr) + Under(stk, t - 1, stk[t - 1].flags.cont) &&
      EntryOk(stk, t - 1)
    ensures Left(stk, t - 1) == Under(stk, t, true)
    ensures Sources(stk, t - 1) == if stk[t - 1].flags.alcont && stk[t - 1].alias >= 0 then
      Sources(stk, t) - {stk[t - 1].alias} else Sources(stk, t)
  {
    SourcesPop(stk, t);
    SourcesPositive(stk, t);
  }
}
