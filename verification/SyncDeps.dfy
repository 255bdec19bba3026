/** sync_deps(): which dependency files are touched when the configuration changes
    between builds, with auto.conf as the memory of the previous configuration. */
module SyncDeps {
  import opened Wrappers
  import opened Expressions
  import opened ConfigText

  /** str_value and _write_to_conf of every symbol, in definition order. */
  type Snapshot = seq<(string, bool)>

  /** What a build can see of a symbol: n and unwritten symbols are as good as missing. */
  function Entry(d: Symbol, v: (string, bool)): Option<string> {
    if !v.1 || (d.ty.Logic() && v.0 == "n") then None else Some(v.0)
  }

  /** What follows the name in the #define of a symbol. */
  function HeaderTail(ty: Ty, val: string): string {
    if ty.Logic() then (if val == "y" then " 1" else "_MODULE 1")
    else if ty.String? then " \"" + Escape(val) + "\""
    else " " + (if ty.Hex? && !("0x" <= val) && !("0X" <= val) then "0x" + val else val)
  }

  /** The #define of a symbol in autoconf.h (_autoconf_contents()). */
  function HeaderLine(d: Symbol, v: (string, bool)): Option<string> {
    if !v.1 || (d.ty.Logic() && v.0 != "y" && v.0 != "m") then None
    else Some("#define " + PREFIX + d.name + HeaderTail(d.ty, v.0))
  }

  /** A snapshot of the symbols: logic symbols have logic values, and no value contains a
      newline, which no configuration file can represent. */
  predicate SnapshotOk(syms: seq<Symbol>, snap: Snapshot) {
    && |snap| == |syms|
    && forall s :: 0 <= s < |snap| ==>
         '\n' !in snap[s].0
         && (syms[s].ty.Logic() ==> snap[s].0 == "n" || snap[s].0 == "m" || snap[s].0 == "y")
         && (syms[s].ty.Unknown? ==> !snap[s].1)
  }

  /** What is remembered of the first 'n' symbols. */
  function Remembered(syms: seq<Symbol>, snap: Snapshot, n: nat): map<nat, string>
    requires n <= |syms| == |snap|
  {
    map s | 0 <= s < n && Entry(syms[s], snap[s]).Some? :: Entry(syms[s], snap[s]).value
  }

  /** The symbols whose visible state differs between two snapshots. */
  function Changed(syms: seq<Symbol>, old0: map<nat, string>, snap: Snapshot): set<nat>
    requires |syms| == |snap|
  {
    set s | 0 <= s < |syms| && Entry(syms[s], snap[s]) != (if s in old0 then Some(old0[s]) else None)
  }

  /** The directory with auto.conf and the dependency files. */
  class DepDirectory {
    var autoConf: Option<seq<string>>  // lines of auto.conf, if it exists
    var touched: set<nat>              // symbols whose file has been touched since creation
    var removed: set<string>           // names without a symbol whose file has been touched

    constructor ()
      ensures autoConf.None? && touched == {} && removed == {}
    {
      autoConf, touched, removed := None, {}, {};
    }

    /** auto.conf is what was written for the given snapshot. */
    ghost predicate Remembers(syms: seq<Symbol>, old0: map<nat, string>)
      reads this`autoConf
    {
      exists snap :: SnapshotOk(syms, snap) && old0 == Remembered(syms, snap, |syms|)
                     && autoConf == Some(OldValsLines(syms, snap, |syms|))
    }

    /** _load_old_vals(): names that are neither defined nor referred to any more are touched at
        once. 'referred' has the names of the undefined symbols that are referred to. */
    method LoadOldVals(syms: seq<Symbol>, referred: set<string>) returns (oldVals: map<nat, string>)
      modifies this`removed
      ensures oldVals == if autoConf.None? then map[] else ReadOldVals(syms, autoConf.value)
      ensures removed == old(removed) + if autoConf.None? then {} else UnknownNames(syms, referred, autoConf.value)
    {
      hide SetMatch, ConfStringMatch, Unescape, FindSym;
      oldVals := map[];
      if autoConf.None? { return; }
      var lines := autoConf.value;
      for i := 0 to |lines|
        invariant oldVals == ReadOldVals(syms, lines[..i])
        invariant removed == old(removed) + UnknownNames(syms, referred, lines[..i])
      {
        assert lines[..i + 1][..i] == lines[..i];
        var m := SetMatch(lines[i]);
        if m.Some? {
          var s := FindSym(syms, m.value.0);
          if s.Some? {
            if syms[s.value].ty.String? {
              var body := ConfStringMatch(m.value.1);
              if body.Some? { oldVals := oldVals[s.value := Unescape(body.value)]; }
            } else {
              oldVals := oldVals[s.value := m.value.1];
            }
          } else if m.value.0 !in referred {
            removed := removed + {m.value.0};
          }
        }
      }
      assert lines[..|lines|] == lines;
    }

    /** sync_deps(): exactly the symbols whose visible state has changed since the last
        call are touched, and auto.conf remembers the new state. */
    method SyncDeps(syms: seq<Symbol>, referred: set<string>, snap: Snapshot, ghost old0: map<nat, string>)
      requires NamesOk(syms) && SnapshotOk(syms, snap)
      requires if autoConf.None? then old0 == map[] else Remembers(syms, old0)
      modifies this
      ensures touched == old(touched) + Changed(syms, old0, snap) && removed == old(removed)
      ensures Remembers(syms, Remembered(syms, snap, |syms|))
      ensures autoConf == Some(OldValsLines(syms, snap, |syms|))
    {
      hide NamesOk, ReadOldVals, UnknownNames, OldValsLines;
      if autoConf.Some? { ReadBack(syms, referred, old0); }
      var oldVals := LoadOldVals(syms, referred);
      assert oldVals == old0;
      for s := 0 to |syms|
        invariant autoConf == old(autoConf) && removed == old(removed)
        invariant touched == old(touched) + set t | t in Changed(syms, old0, snap) && t < s
      {
        var (val, write) := snap[s];
        var same;
        if write {
          same := (s !in oldVals && syms[s].ty.Logic() && val == "n") || (s in oldVals && val == oldVals[s]);
        } else {
          same := s !in oldVals;
        }
        if s in old0 { OldIsVisible(syms, old0, s); }
        if !same { touched := touched + {s}; }
      }
      autoConf := Some(WriteOldVals(syms, snap));
    }

    /** For the same symbols, auto.conf gives back what it remembers, and no other names. */
    lemma ReadBack(syms: seq<Symbol>, referred: set<string>, old0: map<nat, string>)
      requires NamesOk(syms) && Remembers(syms, old0)
      ensures autoConf.Some? && ReadOldVals(syms, autoConf.value) == old0
      ensures UnknownNames(syms, referred, autoConf.value) == {}
    {
      var before :| SnapshotOk(syms, before) && old0 == Remembered(syms, before, |syms|)
                    && autoConf == Some(OldValsLines(syms, before, |syms|));
      OldValsAreRead(syms, before, |syms|);
      RemovedAreTouched(syms, before, |syms|, syms, referred);
      NothingGone(syms, before, syms, referred);
    }

    /** A remembered value of a logic symbol is not n. */
    lemma OldIsVisible(syms: seq<Symbol>, old0: map<nat, string>, s: nat)
      requires Remembers(syms, old0) && s in old0
      ensures s < |syms| && (syms[s].ty.Logic() ==> old0[s] != "n")
    {
    }
  }

  /** _old_vals_contents(), for the first 'n' symbols. */
  function OldValsLines(syms: seq<Symbol>, snap: Snapshot, n: nat): seq<string>
    requires n <= |syms| == |snap|
  {
    if n == 0 then [] else
    OldValsLines(syms, snap, n - 1)
    + (if Entry(syms[n - 1], snap[n - 1]).Some? then [ConfigString(syms[n - 1], snap[n - 1].0)] else [])
  }

  function WriteOldVals(syms: seq<Symbol>, snap: Snapshot): seq<string>
    requires |syms| == |snap|
  {
    OldValsLines(syms, snap, |syms|)
  }

  /** The old value that a line of auto.conf gives to a symbol. */
  function ReadOldVal(syms: seq<Symbol>, line: string): Option<(nat, string)> {
    var m := SetMatch(line);
    if m.None? then None else
    var s := FindSym(syms, m.value.0);
    if s.None? then None
    else if syms[s.value].ty.String? then
      var body := ConfStringMatch(m.value.1);
      if body.None? then None else Some((s.value, Unescape(body.value)))
    else Some((s.value, m.value.1))
  }

  function ReadOldVals(syms: seq<Symbol>, lines: seq<string>): map<nat, string> {
    if lines == [] then map[] else
    var r := ReadOldVal(syms, lines[|lines| - 1]);
    var m := ReadOldVals(syms, lines[..|lines| - 1]);
    if r.None? then m else m[r.value.0 := r.value.1]
  }

  /** Is there no symbol of this name? */
  predicate IsUnknown(syms: seq<Symbol>, referred: set<string>, name: string) {
    FindSym(syms, name).None? && name !in referred
  }

  /** The names set by the lines that are not those of symbols. */
  function UnknownNames(syms: seq<Symbol>, referred: set<string>, lines: seq<string>): set<string> {
    if lines == [] then {} else
    var m := SetMatch(lines[|lines| - 1]);
    UnknownNames(syms, referred, lines[..|lines| - 1])
    + if m.Some? && IsUnknown(syms, referred, m.value.0) then {m.value.0} else {}
  }

  lemma OldValIsRead(syms: seq<Symbol>, s: nat, val: string)
    requires NamesOk(syms) && s < |syms| && (syms[s].ty.Logic() ==> val != "n") && !syms[s].ty.Unknown?
    ensures ReadOldVal(syms, ConfigString(syms[s], val)) == Some((s, val))
  {
    hide SetMatch, ConfStringMatch, Unescape, Escape, AssignLine;
    var d := syms[s];
    StringLiteralRoundTrip(val);
    SetMatchOf(d.name, val);
    SetMatchOf(d.name, "\"" + Escape(val) + "\"");
  }

  /** What is written to auto.conf is what is read from it. */
  lemma {:induction false} OldValsAreRead(syms: seq<Symbol>, snap: Snapshot, n: nat)
    requires NamesOk(syms) && SnapshotOk(syms, snap) && n <= |syms|
    ensures ReadOldVals(syms, OldValsLines(syms, snap, n)) == Remembered(syms, snap, n)
  {
    hide ReadOldVal, ConfigString, Remembered, NamesOk;
    if n > 0 {
      OldValsAreRead(syms, snap, n - 1);
      RememberedStep(syms, snap, n);
      var before := OldValsLines(syms, snap, n - 1);
      if Entry(syms[n - 1], snap[n - 1]).Some? {
        EntryKind(syms, snap, n - 1);
        OldValIsRead(syms, n - 1, snap[n - 1].0);
        assert OldValsLines(syms, snap, n)[..|before|] == before;
      } else {
        assert OldValsLines(syms, snap, n) == before;
      }
    } else {
      assert Remembered(syms, snap, 0) == map[] by { RememberedNone(syms, snap); }
    }
  }

  /** The names of those of the first 'n' symbols that were visible and are not known any more. */
  function GoneNames(syms: seq<Symbol>, snap: Snapshot, n: nat, syms': seq<Symbol>, referred: set<string>): set<string>
    requires n <= |syms| == |snap|
  {
    set s | 0 <= s < n && Entry(syms[s], snap[s]).Some? && IsUnknown(syms', referred, syms[s].name) :: syms[s].name
  }

  lemma GoneStep(syms: seq<Symbol>, snap: Snapshot, n: nat, syms': seq<Symbol>, referred: set<string>)
    requires 0 < n <= |syms| == |snap|
    ensures GoneNames(syms, snap, 0, syms', referred) == {}
    ensures GoneNames(syms, snap, n, syms', referred) == GoneNames(syms, snap, n - 1, syms', referred)
            + if Entry(syms[n - 1], snap[n - 1]).Some? && IsUnknown(syms', referred, syms[n - 1].name)
              then {syms[n - 1].name} else {}
  {
    hide Entry, IsUnknown;
  }

  /** When the defined symbols have changed since auto.conf was written, the names of those that
      were visible and are gone are touched, and no others. */
  lemma {:induction false} RemovedAreTouched(syms: seq<Symbol>, snap: Snapshot, n: nat, syms': seq<Symbol>, referred: set<string>)
    requires NamesOk(syms) && SnapshotOk(syms, snap) && n <= |syms|
    ensures UnknownNames(syms', referred, OldValsLines(syms, snap, n)) == GoneNames(syms, snap, n, syms', referred)
  {
    hide SetMatch, ConfigString, Entry, IsUnknown, NamesOk, GoneNames;
    if n == 0 {
      NothingGone(syms, snap, syms', referred);
    } else {
      RemovedAreTouched(syms, snap, n - 1, syms', referred);
      GoneStep(syms, snap, n, syms', referred);
      var before := OldValsLines(syms, snap, n - 1);
      if Entry(syms[n - 1], snap[n - 1]).Some? {
        EntryKind(syms, snap, n - 1);
        NameIsRead(syms, n - 1, snap[n - 1].0);
        assert OldValsLines(syms, snap, n)[..|before|] == before;
      } else {
        assert OldValsLines(syms, snap, n) == before;
      }
    }
  }

  lemma NothingGone(syms: seq<Symbol>, snap: Snapshot, syms': seq<Symbol>, referred: set<string>)
    requires |syms| == |snap|
    ensures GoneNames(syms, snap, 0, syms', referred) == {} && GoneNames(syms, snap, |syms|, syms, referred) == {}
  {
    forall s | 0 <= s < |syms| ensures !IsUnknown(syms, referred, syms[s].name) { }
  }

  lemma NameIsRead(syms: seq<Symbol>, s: nat, val: string)
    requires NamesOk(syms) && s < |syms| && (syms[s].ty.Logic() ==> val != "n") && !syms[s].ty.Unknown?
    ensures var m := SetMatch(ConfigString(syms[s], val)); m.Some? && m.value.0 == syms[s].name
  {
    hide SetMatch, Escape, AssignLine;
    SetMatchOf(syms[s].name, val);
    SetMatchOf(syms[s].name, "\"" + Escape(val) + "\"");
  }

  lemma EntryKind(syms: seq<Symbol>, snap: Snapshot, s: nat)
    requires SnapshotOk(syms, snap) && s < |syms| && Entry(syms[s], snap[s]).Some?
    ensures !syms[s].ty.Unknown? && (syms[s].ty.Logic() ==> snap[s].0 != "n")
    ensures Entry(syms[s], snap[s]).value == snap[s].0
  {
  }

  lemma RememberedNone(syms: seq<Symbol>, snap: Snapshot)
    requires |syms| == |snap|
    ensures Remembered(syms, snap, 0) == map[]
  {
  }

  lemma RememberedStep(syms: seq<Symbol>, snap: Snapshot, n: nat)
    requires 0 < n <= |syms| == |snap|
    ensures var e := Entry(syms[n - 1], snap[n - 1]);
            var m := Remembered(syms, snap, n - 1);
            Remembered(syms, snap, n) == if e.Some? then m[n - 1 := e.value] else m
  {
  }

  /** Soundness for builds: a symbol whose line in autoconf.h appears, vanishes or changes
      is among the changed ones. */
  lemma HeaderChangeIsChange(syms: seq<Symbol>, before: Snapshot, after: Snapshot, s: nat)
    requires SnapshotOk(syms, before) && SnapshotOk(syms, after) && s < |syms|
    requires HeaderLine(syms[s], before[s]) != HeaderLine(syms[s], after[s])
    ensures s in Changed(syms, Remembered(syms, before, |syms|), after)
  {
  }

  /** Precision: apart from hex symbols (which may gain or lose a 0x that the header has in
      either case), only symbols whose line in autoconf.h has changed are touched. */
  lemma ChangeIsHeaderChange(syms: seq<Symbol>, before: Snapshot, after: Snapshot, s: nat)
    requires SnapshotOk(syms, before) && SnapshotOk(syms, after) && s < |syms| && !syms[s].ty.Hex?
    requires s in Changed(syms, Remembered(syms, before, |syms|), after)
    ensures HeaderLine(syms[s], before[s]) != HeaderLine(syms[s], after[s])
  {
    hide HeaderTail;
    var d := syms[s];
    var start := "#define " + PREFIX + d.name;
    var h, h' := HeaderLine(d, before[s]), HeaderLine(d, after[s]);
    if h.Some? && h'.Some? {
      assert h.value[|start|..] == HeaderTail(d.ty, before[s].0);
      assert h'.value[|start|..] == HeaderTail(d.ty, after[s].0);
      if HeaderTail(d.ty, before[s].0) == HeaderTail(d.ty, after[s].0) {
        TailIsInjective(d.ty, before[s].0, after[s].0);
      }
    }
  }

  lemma TailIsInjective(ty: Ty, val: string, val': string)
    requires HeaderTail(ty, val) == HeaderTail(ty, val') && !ty.Hex?
    requires ty.Logic() ==> (val == "y" || val == "m") && (val' == "y" || val' == "m")
    ensures val == val'
  {
    hide Escape;
    EscapeIsBody(val);
    EscapeIsBody(val');
    var t, t' := HeaderTail(ty, val), HeaderTail(ty, val');
    if ty.String? {
      assert t[2..|t| - 1] == Escape(val) && t'[2..|t'| - 1] == Escape(val');
    } else if ty.Logic() {
      assert " 1"[0] != "_MODULE 1"[0];
    } else {
      assert t[1..] == val && t'[1..] == val';
    }
  }

  /** Without a change of visible state nothing is touched. */
  lemma NoChangeNoTouch(syms: seq<Symbol>, before: Snapshot, after: Snapshot)
    requires |before| == |after| == |syms|
    ensures Changed(syms, Remembered(syms, before, |syms|), after) == {}
            <==> forall s :: 0 <= s < |syms| ==> Entry(syms[s], before[s]) == Entry(syms[s], after[s])
  {
    if s :| 0 <= s < |syms| && Entry(syms[s], before[s]) != Entry(syms[s], after[s]) {
      assert s in Changed(syms, Remembered(syms, before, |syms|), after);
    }
  }

  /** What is remembered of the snapshots before number 'i'. */
  function Previous(syms: seq<Symbol>, snaps: seq<Snapshot>, i: nat): map<nat, string>
    requires i <= |snaps| && forall j :: 0 <= j < |snaps| ==> |snaps[j]| == |syms|
  {
    if i == 0 then map[] else Remembered(syms, snaps[i - 1], |syms|)
  }

  /** Any number of builds in a row: each touches exactly what has changed since the build
      before it, and the first one everything that is visible. */
  method SyncAll(syms: seq<Symbol>, referred: set<string>, snaps: seq<Snapshot>) returns (touches: seq<set<nat>>)
    requires NamesOk(syms) && forall i :: 0 <= i < |snaps| ==> |snaps[i]| == |syms| && SnapshotOk(syms, snaps[i])
    ensures |touches| == |snaps|
    ensures forall i :: 0 <= i < |snaps| ==> touches[i] == Changed(syms, Previous(syms, snaps, i), snaps[i])
  {
    hide NamesOk, SnapshotOk, Changed, Remembered, OldValsLines;
    touches := [];
    var dir := new DepDirectory();
    for i := 0 to |snaps|
      invariant |touches| == i
      invariant if i == 0 then dir.autoConf.None?
                else dir.autoConf.Some? && dir.Remembers(syms, Previous(syms, snaps, i))
      invariant forall j :: 0 <= j < i ==> touches[j] == Changed(syms, Previous(syms, snaps, j), snaps[j])
    {
      dir.touched := {};
      dir.SyncDeps(syms, referred, snaps[i], Previous(syms, snaps, i));
      touches := touches + [dir.touched];
    }
  }
}
