/** The preprocessor, which expands macros in place and counts the expansions in progress. */
module Preprocessor {
  import opened Wrappers
  import M = Macros

  class Expander {
    const names: M.Names
    var nExpansions: M.Counts  // Variable._n_expansions

    constructor (names: M.Names)
      ensures this.names == names && |nExpansions| == |names.variables| && forall c :: c in nExpansions ==> c == 0
    {
      this.names := names;
      nExpansions := seq(|names.variables|, _ => 0);
    }

    ghost predicate Valid()
      reads this
    {
      |nExpansions| == |names.variables|
    }

    /** _expand_whole(). It ends, and on a normal return all counters are as before. */
    method ExpandWhole(s0: string, args: seq<string>) returns (r: Option<string>)
      requires Valid()
      modifies this
      ensures Valid() && r == M.ExpandWhole(names, old(nExpansions), s0, 0, args)
      ensures r.Some? ==> nExpansions == old(nExpansions)
      decreases M.Budget(nExpansions), |s0|, 3
    {
      var s, i := s0, M.FindMacro(s0, 0);
      while i < |s|
        invariant 0 <= i <= |s| && nExpansions == old(nExpansions) && (i < |s| ==> M.MacroAt(s, i))
        invariant |s| - i <= |s0|
        invariant M.ExpandWhole(names, nExpansions, s, i, args) == M.ExpandWhole(names, nExpansions, s0, 0, args)
        decreases |s| - i
      {
        var e := ExpandMacro(s, i, args);
        if e.None? { return None; }
        s, i := e.value.s, M.FindMacro(e.value.s, e.value.i);
      }
      r := Some(s);
    }

    /** _expand_macro() */
    method ExpandMacro(s0: string, start: nat, args: seq<string>) returns (r: Option<M.Expanded>)
      requires Valid() && M.MacroAt(s0, start)
      modifies this
      ensures Valid() && r == M.ExpandMacro(names, old(nExpansions), s0, start, args)
      ensures r.Some? ==> nExpansions == old(nExpansions)
      decreases M.Budget(nExpansions), |s0| - start, 1
    {
      hide M.Scan;
      var s, res, i := s0, s0[..start], start + 2;
      var argStart, newArgs, nesting: nat := i, [], 0;
      while true
        invariant start < argStart <= i <= |s| && |s| - i < |s0| - start && s[..start] == res
        invariant nExpansions == old(nExpansions)
        invariant M.Scan(names, nExpansions, s, i, args, start, argStart, newArgs, nesting)
                  == M.ExpandMacro(names, nExpansions, s0, start, args)
        decreases |s| - i
      {
        ScanStep(names, nExpansions, s, i, args, start, argStart, newArgs, nesting);
        var j := M.FindSpecial(s, i);
        if j == |s| { return None; }
        if M.MacroAt(s, j) {
          var e := ExpandMacro(s, j, args);
          if e.None? { return None; }
          assert e.value.s[..start] == e.value.s[..j][..start] == s[..j][..start];
          s, i := e.value.s, e.value.i;
        } else if s[j] == '(' {
          nesting, i := nesting + 1, j + 1;
        } else if s[j] == ')' {
          if nesting > 0 {
            nesting, i := nesting - 1, j + 1;
            continue;
          }
          newArgs := newArgs + [s[argStart..j]];
          var v := MacroVal(newArgs, args);
          if v.None? { return None; }
          res := res + v.value;
          return Some(M.Expanded(res + s[j + 1..], |res|));
        } else {
          i := j + 1;
          if nesting == 0 {
            newArgs, argStart := newArgs + [s[argStart..j]], i;
          }
        }
      }
    }

    static lemma ScanStep(m: M.Names, n: M.Counts, s: string, i: nat, args: seq<string>,
                          start: nat, argStart: nat, newArgs: seq<string>, nesting: nat)
      requires |n| == |m.variables| && start < argStart <= i <= |s|
      ensures var j, r := M.FindSpecial(s, i), M.Scan(m, n, s, i, args, start, argStart, newArgs, nesting);
              if j == |s| then r == None
              else if M.MacroAt(s, j) then
                var e := M.ExpandMacro(m, n, s, j, args);
                r == if e.None? then None else M.Scan(m, n, e.value.s, e.value.i, args, start, argStart, newArgs, nesting)
              else if s[j] == '(' then r == M.Scan(m, n, s, j + 1, args, start, argStart, newArgs, nesting + 1)
              else if s[j] == ')' then
                if nesting > 0 then r == M.Scan(m, n, s, j + 1, args, start, argStart, newArgs, nesting - 1) else
                var v := M.MacroVal(m, n, newArgs + [s[argStart..j]], args);
                r == if v.None? then None else Some(M.Expanded(s[..start] + v.value + s[j + 1..], start + |v.value|))
              else
                if nesting > 0 then r == M.Scan(m, n, s, j + 1, args, start, argStart, newArgs, nesting)
                else r == M.Scan(m, n, s, j + 1, args, start, j + 1, newArgs + [s[argStart..j]], 0)
    {
      hide M.ExpandMacro, M.MacroVal;
    }

    /** The value of a macro: an argument of the macro it is in, or a function value. */
    method MacroVal(newArgs: seq<string>, args: seq<string>) returns (r: Option<string>)
      requires Valid() && newArgs != []
      modifies this
      ensures Valid() && r == M.MacroVal(names, old(nExpansions), newArgs, args)
      ensures r.Some? ==> nExpansions == old(nExpansions)
      decreases M.Budget(nExpansions), 0, 1
    {
      r := M.Argument(args, newArgs[0]);
      if r.None? { r := FnVal(newArgs); }
    }

    /** _fn_val() */
    method FnVal(args: seq<string>) returns (r: Option<string>)
      requires Valid() && args != []
      modifies this
      ensures Valid() && r == M.FnVal(names, old(nExpansions), args)
      ensures r.Some? ==> nExpansions == old(nExpansions)
      decreases M.Budget(nExpansions), 0, 0
    {
      var v := M.FindVariable(names.variables, args[0]);
      if v.Some? {
        var x := v.value;
        if |args| == 1 {
          if nExpansions[x] != 0 { return None; }
        } else if nExpansions[x] > 100 {
          return None;
        }
        M.BudgetShrinks(nExpansions, x);
        nExpansions := nExpansions[x := nExpansions[x] + 1];
        r := ExpandWhole(names.variables[x].value, args);
        if r.Some? { nExpansions := nExpansions[x := nExpansions[x] - 1]; }
        return;
      }
      match names.call(args[0], args[1..])
      case Failed => r := None;
      case Value(text) => r := Some(text);
      case Undefined =>
        var e := names.environ(args[0]);
        r := Some(if e.Some? then e.value else "");
    }
  }
}
