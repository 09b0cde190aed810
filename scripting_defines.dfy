// ScriptingDefinePopupField: an editor popup that picks one of several
// scripting define symbols and rewrites the build target group's
// ';'-separated define string to hold it. The define string is a field of
// a settings object; reading it is reading the field and every
// SetScriptingDefineSymbols call is one write, which the object counts.
// Symbol tests are substring tests (String.Contains), and removal is
// String.Replace with an empty replacement.
module ScriptingDefines {
  import opened Wrappers

  /** String.Contains: t occurs somewhere in s (the empty string occurs in every string). */
  predicate Contains(s: string, t: string)
    decreases |s|
  {
    |t| <= |s| && (s[..|t|] == t || Contains(s[1..], t))
  }

  /** An occurrence at index k makes t a substring. */
  lemma {:induction false} ContainsAt(s: string, t: string, k: nat)
    requires k + |t| <= |s| && s[k..k + |t|] == t
    ensures Contains(s, t)
    decreases k
  {
    if k > 0 {
      assert s[1..][k - 1..k - 1 + |t|] == s[k..k + |t|];
      ContainsAt(s[1..], t, k - 1);
    }
  }

  /** A substring occurs at some index. */
  lemma {:induction false} Occurrence(s: string, t: string) returns (k: nat)
    requires Contains(s, t)
    ensures k + |t| <= |s| && s[k..k + |t|] == t
    decreases |s|
  {
    if s[..|t|] == t {
      k := 0;
    } else {
      var j := Occurrence(s[1..], t);
      assert s[1..][j..j + |t|] == s[j + 1..j + 1 + |t|];
      k := j + 1;
    }
  }

  /** A string holding t + u holds t. */
  lemma ContainsPrefixOf(s: string, t: string, u: string)
    requires Contains(s, t + u)
    ensures Contains(s, t)
  {
    var k := Occurrence(s, t + u);
    assert s[k..k + |t|] == (t + u)[..|t|];
    ContainsAt(s, t, k);
  }

  /**
   * String.Replace: every occurrence of p, scanning left to right and
   * never overlapping, becomes r. The library rejects an empty p.
   */
  function Replace(s: string, p: string, r: string): (t: string)
    requires p != []
    ensures !Contains(s, p) ==> t == s
    ensures r == [] ==> |t| <= |s|
    ensures r == [] && Contains(s, p) ==> |t| <= |s| - |p|
    decreases |s|
  {
    if |s| < |p| then s
    else if s[..|p|] == p then r + Replace(s[|p|..], p, r)
    else [s[0]] + Replace(s[1..], p, r)
  }

  /** When p first occurs as the tail of d + p, replacing p turns d + p into d + r. */
  lemma {:induction false} ReplaceTail(d: string, p: string, r: string)
    requires p != [] && !Contains(d + p[..|p| - 1], p)
    ensures Replace(d + p, p, r) == d + r
    decreases |d|
  {
    if d == [] {
      assert (d + p)[..|p|] == p && (d + p)[|p|..] == [];
    } else {
      var x := d + p[..|p| - 1];
      assert (d + p)[..|p|] == x[..|p|];
      assert x[1..] == d[1..] + p[..|p| - 1];
      ReplaceTail(d[1..], p, r);
      assert (d + p)[1..] == d[1..] + p;
      assert [(d + p)[0]] + (d[1..] + r) == d + r;
    }
  }

  /** HasScriptingDefineSymbol's scan from index i: the first symbol found from there on, else 0. */
  function FirstFrom(d: string, symbols: seq<string>, i: nat): int
    requires i <= |symbols|
    decreases |symbols| - i
  {
    if i == |symbols| then 0
    else if Contains(d, symbols[i]) then i
    else FirstFrom(d, symbols, i + 1)
  }

  /** The index of the first symbol d contains, or 0 when it contains none. */
  function FirstDefined(d: string, symbols: seq<string>): int
  {
    FirstFrom(d, symbols, 0)
  }

  /** The scan from i stops at the first symbol from i on that d contains, or gives 0 when there is none. */
  lemma {:induction false} FirstFromIsFirst(d: string, symbols: seq<string>, i: nat)
    requires i <= |symbols|
    ensures var r := FirstFrom(d, symbols, i);
      (r == 0 && forall j :: i <= j < |symbols| ==> !Contains(d, symbols[j])) ||
      (i <= r < |symbols| && Contains(d, symbols[r]) && forall j :: i <= j < r ==> !Contains(d, symbols[j]))
    decreases |symbols| - i
  {
    if i < |symbols| && !Contains(d, symbols[i]) {
      FirstFromIsFirst(d, symbols, i + 1);
    }
  }

  /**
   * The popup's starting selection: an index into the symbols (0 when
   * there are none), no earlier symbol is in d, and when any symbol is in
   * d, the selected one is.
   */
  lemma FirstDefinedIsFirst(d: string, symbols: seq<string>)
    ensures var r := FirstDefined(d, symbols);
      (r == 0 || r < |symbols|) &&
      (forall j :: 0 <= j < r ==> !Contains(d, symbols[j])) &&
      ((exists j :: 0 <= j < |symbols| && Contains(d, symbols[j])) ==> 0 <= r < |symbols| && Contains(d, symbols[r]))
  {
    FirstFromIsFirst(d, symbols, 0);
  }

  /** AddScriptingDefineSymbol's new define string: ";" + s appended unless s already occurs. */
  function Added(d: string, s: string): string
  {
    if Contains(d, s) then d else d + ";" + s
  }

  /** After adding, the symbol is in the define string, and adding it again changes nothing. */
  lemma AddedDefines(d: string, s: string)
    ensures Contains(Added(d, s), s)
    ensures Added(Added(d, s), s) == Added(d, s)
  {
    if !Contains(d, s) {
      var a := d + ";" + s;
      assert a[|d| + 1..|d| + 1 + |s|] == s;
      ContainsAt(a, s, |d| + 1);
    }
  }

  /**
   * RemoveScriptingDefineSymbol's new define string: unchanged when s does
   * not occur; otherwise every ";" + s, then every s + ";", then every s
   * erased. None when s is empty: it always occurs, and the third
   * String.Replace rejects the empty pattern.
   */
  function Removed(d: string, s: string): Option<string>
  {
    if !Contains(d, s) then Some(d)
    else if s == [] then None
    else Some(Replace(Replace(Replace(d, ";" + s, ""), s + ";", ""), s, ""))
  }

  /** Removal fails exactly for the empty symbol, and is a no-op when the symbol does not occur. */
  lemma RemovedFails(d: string, s: string)
    ensures Removed(d, s) == None <==> s == []
    ensures !Contains(d, s) ==> Removed(d, s) == Some(d)
  {
    assert Contains(d, []) by { assert d[..0] == []; }
  }

  /** Removing a symbol that occurs takes out at least its length. */
  lemma RemovedShrinks(d: string, s: string)
    requires s != [] && Contains(d, s)
    ensures Removed(d, s).Some? && |Removed(d, s).value| <= |d| - |s|
  {
    var a := Replace(d, ";" + s, "");
    var b := Replace(a, s + ";", "");
    if !Contains(d, ";" + s) {
      assert a == d;
      if !Contains(a, s + ";") {
        assert b == d;
      }
    }
  }

  /** The first ";" + s in d + ";" + s is the appended one, when d lacks s and s has no ';'. */
  lemma TailOnly(d: string, s: string)
    requires s != [] && ';' !in s && !Contains(d, s)
    ensures !Contains(d + ";" + s[..|s| - 1], ";" + s)
  {
    var x := d + ";" + s[..|s| - 1];
    var p := ";" + s;
    if Contains(x, p) {
      var k := Occurrence(x, p);
      assert x[k + 1..k + 1 + |s|] == p[1..] == s;
      assert forall i :: k + 1 <= i < k + 1 + |s| ==> x[i] == s[i - k - 1] != ';';
      assert x[|d|] == ';';
      assert d[k + 1..k + 1 + |s|] == x[k + 1..k + 1 + |s|];
      ContainsAt(d, s, k + 1);
    }
  }

  /**
   * Round trip: adding a symbol the define string does not hold, and that
   * has no ';' of its own, then removing it, gives back the define string.
   */
  lemma RemoveAfterAdd(d: string, s: string)
    requires s != [] && ';' !in s && !Contains(d, s)
    ensures Removed(Added(d, s), s) == Some(d)
  {
    AddedDefines(d, s);
    var p := ";" + s;
    assert Added(d, s) == d + p;
    TailOnly(d, s);
    assert p[..|p| - 1] == ";" + s[..|s| - 1];
    assert d + p[..|p| - 1] == d + ";" + s[..|s| - 1];
    ReplaceTail(d, p, "");
    assert d + "" == d;
    if Contains(d, s + ";") {
      ContainsPrefixOf(d, s, ";");
    }
  }

  /** The define string and write count after removing symbols left to right, and whether every removal succeeded. */
  datatype Removal = Removal(defines: string, sets: nat, ok: bool)

  /**
   * Draw's removal loop: each symbol removed in turn, one write for each
   * symbol that occurs; the first empty symbol stops the loop, with the
   * earlier removals written.
   */
  function RemoveEach(d: string, sets: nat, symbols: seq<string>): (r: Removal)
    ensures r.ok <==> forall i :: 0 <= i < |symbols| ==> symbols[i] != []
    ensures r.sets >= sets
    decreases |symbols|
  {
    if symbols == [] then Removal(d, sets, true)
    else
      RemovedFails(d, symbols[0]);
      match Removed(d, symbols[0])
      case None => Removal(d, sets, false)
      case Some(d') =>
        var r := RemoveEach(d', sets + (if Contains(d, symbols[0]) then 1 else 0), symbols[1..]);
        assert forall i :: 1 <= i < |symbols| ==> symbols[i] == symbols[1..][i - 1];
        r
  }

  /**
   * Draw's effect once the popup shows `chosen`: nothing when the selection
   * did not move from the first defined symbol; a failure when `chosen`
   * does not index the symbols; nothing when the dialog is declined;
   * otherwise every symbol removed and then the chosen one added.
   */
  function Switched(d: string, sets: nat, values: seq<string>, chosen: int, confirmed: bool): Removal
  {
    if chosen == FirstDefined(d, values) then Removal(d, sets, true)
    else if !(0 <= chosen < |values|) then Removal(d, sets, false)
    else if !confirmed then Removal(d, sets, true)
    else
      var r := RemoveEach(d, sets, values);
      if !r.ok then r
      else Removal(Added(r.defines, values[chosen]), r.sets + (if Contains(r.defines, values[chosen]) then 0 else 1), true)
  }

  /**
   * A confirmed switch to another symbol, with no symbol empty, succeeds
   * and leaves the chosen symbol in the define string; a declined one
   * leaves the define string as it was; an empty symbol makes a confirmed
   * switch fail.
   */
  lemma SwitchedDefinesChosen(d: string, sets: nat, values: seq<string>, chosen: int, confirmed: bool)
    ensures !confirmed ==> Switched(d, sets, values, chosen, confirmed).defines == d
    ensures confirmed && chosen != FirstDefined(d, values) && 0 <= chosen < |values| ==>
      (Switched(d, sets, values, chosen, confirmed).ok <==> forall i :: 0 <= i < |values| ==> values[i] != [])
    ensures var r := Switched(d, sets, values, chosen, confirmed);
      confirmed && chosen != FirstDefined(d, values) && r.ok ==> Contains(r.defines, values[chosen])
  {
    if confirmed && chosen != FirstDefined(d, values) && 0 <= chosen < |values| {
      var r := RemoveEach(d, sets, values);
      AddedDefines(r.defines, values[chosen]);
    }
  }

  /** The define string of the selected build target group, and how many times it has been written. */
  class DefineSettings {
    var defines: string
    var sets: nat

    constructor (defines: string)
      ensures this.defines == defines && sets == 0
    {
      this.defines := defines;
      sets := 0;
    }

    /** SetScriptingDefineSymbols: one write. */
    method SetDefines(d: string)
      modifies this
      ensures defines == d && sets == old(sets) + 1
    {
      defines := d;
      sets := sets + 1;
    }

    /** HasScriptingDefineSymbol: the index of the first symbol the define string contains, else 0. */
    method HasScriptingDefineSymbol(defineSymbols: seq<string>) returns (index: int)
      ensures index == FirstDefined(defines, defineSymbols)
    {
      var i := 0;
      while i < |defineSymbols|
        invariant 0 <= i <= |defineSymbols|
        invariant FirstFrom(defines, defineSymbols, i) == FirstDefined(defines, defineSymbols)
      {
        if Contains(defines, defineSymbols[i]) {
          return i;
        }
        i := i + 1;
      }
      return 0;
    }

    /** AddScriptingDefineSymbol: ";" + symbol appended and written, only when symbol does not occur. */
    method AddScriptingDefineSymbol(symbol: string)
      modifies this
      ensures defines == Added(old(defines), symbol)
      ensures sets == old(sets) + (if Contains(old(defines), symbol) then 0 else 1)
    {
      var d := defines;
      if !Contains(d, symbol) {
        d := d + ";" + symbol;
        SetDefines(d);
      }
    }

    /**
     * RemoveScriptingDefineSymbol: when symbol occurs, the three erasures
     * written back. ok is false where String.Replace throws, for the empty
     * symbol, and nothing is written then.
     */
    method RemoveScriptingDefineSymbol(symbol: string) returns (ok: bool)
      modifies this
      ensures ok <==> Removed(old(defines), symbol).Some?
      ensures defines == (if ok then Removed(old(defines), symbol).value else old(defines))
      ensures sets == old(sets) + (if ok && Contains(old(defines), symbol) then 1 else 0)
    {
      var d := defines;
      if Contains(d, symbol) {
        d := Replace(d, ";" + symbol, "");
        d := Replace(d, symbol + ";", "");
        if symbol == [] {
          return false;
        }
        d := Replace(d, symbol, "");
        SetDefines(d);
      }
      return true;
    }

    /**
     * Draw, with the popup's answer `chosen` and the dialog's answer
     * `confirmed` as inputs. ok is false where the source throws: an
     * index outside the symbols, or an empty symbol in the removal loop.
     */
    method Draw(values: seq<string>, chosen: int, confirmed: bool) returns (ok: bool)
      modifies this
      ensures Removal(defines, sets, ok) == Switched(old(defines), old(sets), values, chosen, confirmed)
    {
      var index := HasScriptingDefineSymbol(values);
      if chosen == index {
        return true;
      }
      if !(0 <= chosen < |values|) {
        return false;
      }
      if !confirmed {
        return true;
      }
      ghost var removal := RemoveEach(defines, sets, values);
      var i := 0;
      while i < |values|
        invariant 0 <= i <= |values|
        invariant RemoveEach(defines, sets, values[i..]) == removal
      {
        assert values[i..][1..] == values[i + 1..];
        ghost var d, n := defines, sets;
        var removed := RemoveScriptingDefineSymbol(values[i]);
        if !removed {
          assert RemoveEach(d, n, values[i..]) == Removal(d, n, false);
          return false;
        }
        assert RemoveEach(d, n, values[i..]) == RemoveEach(defines, sets, values[i + 1..]);
        i := i + 1;
      }
      AddScriptingDefineSymbol(values[chosen]);
      return true;
    }
  }
}
