/** The table of shell variables: setting, unsetting, making local, and undoing that when a function returns. */
module Variables {
  import opened Bytes
  import opened Chains
  import opened LocalVars

  const VTABSIZE := 517

  /** The hash of a name, kept to 32 bits. */
  function HashFrom(name: string, i: nat, h: nat): (r: nat)
    requires i <= |name|
    decreases |name| - i
  {
    if i == |name| then h else HashFrom(name, i + 1, (2 * h + name[i] as int) % 0x1_0000_0000)
  }

  function Hash(name: string): (r: nat)
    ensures r < VTABSIZE
  {
    HashFrom(name, 0, 0) % VTABSIZE
  }

  method HashValue(name: string) returns (r: nat)
    ensures r == Hash(name)
  {
    var h: nat, i := 0, 0;
    while i < |name|
      invariant i <= |name| && HashFrom(name, i, h) == HashFrom(name, 0, 0)
    {
      h := (2 * h + name[i] as int) % 0x1_0000_0000;
      i := i + 1;
    }
    r := h % VTABSIZE;
  }

  /** The table says the same as the map. */
  ghost predicate Agrees(chains: seq<seq<Entry<Var>>>, vars: map<string, Var>) {
    && |chains| == VTABSIZE && (forall b :: 0 <= b < VTABSIZE ==> Distinct(chains[b]))
    && forall n {:trigger Hash(n)} :: Get(chains[Hash(n)], n) == if n in vars then Some(vars[n]) else None
  }

  lemma AgreesStored(chains: seq<seq<Entry<Var>>>, vars: map<string, Var>, n: string, v: Var)
    requires Agrees(chains, vars) && n in vars
    ensures var b := Hash(n); var i := PlaceOf(chains[b], n);
            i < |chains[b]| && Agrees(chains[b := chains[b][i := Entry(n, v)]], vars[n := v])
  {
    hide HashFrom, Hash, PlaceOf;
    var b := Hash(n);
    var i := PlaceOf(chains[b], n);
    assert Get(chains[b], n).Some?;
    forall m {:trigger Hash(m)}
      ensures Distinct(chains[b][i := Entry(n, v)])
      ensures Get(chains[b][i := Entry(n, v)], m) == if m == n then Some(v) else Get(chains[b], m)
    {
      GetStored(chains[b], i, v, m);
    }
    GetStored(chains[b], i, v, n);
  }

  lemma AgreesPrepended(chains: seq<seq<Entry<Var>>>, vars: map<string, Var>, n: string, v: Var)
    requires Agrees(chains, vars) && n !in vars
    ensures var b := Hash(n); Agrees(chains[b := [Entry(n, v)] + chains[b]], vars[n := v])
  {
    var b := Hash(n);
    assert Get(chains[b], n) == None;
    forall m {:trigger Hash(m)}
      ensures Distinct([Entry(n, v)] + chains[b])
      ensures Get([Entry(n, v)] + chains[b], m) == if m == n then Some(v) else Get(chains[b], m)
    {
      GetPrepended(chains[b], Entry(n, v), m);
    }
    GetPrepended(chains[b], Entry(n, v), n);
  }

  lemma AgreesRemoved(chains: seq<seq<Entry<Var>>>, vars: map<string, Var>, n: string)
    requires Agrees(chains, vars) && n in vars
    ensures var b := Hash(n); var i := PlaceOf(chains[b], n);
            i < |chains[b]| && Agrees(chains[b := Without(chains[b], i)], vars - {n})
  {
    hide HashFrom, PlaceOf, Without, Distinct;
    var b := Hash(n);
    var i := PlaceOf(chains[b], n);
    assert Get(chains[b], n).Some?;
    forall m {:trigger Hash(m)}
      ensures Distinct(Without(chains[b], i))
      ensures Get(Without(chains[b], i), m) == if m == n then None else Get(chains[b], m)
    {
      GetRemoved(chains[b], i, m);
    }
    GetRemoved(chains[b], i, n);
  }

  /** The first record of a name, from k on; the number of records if there is none. */
  function FirstOf(records: seq<Record>, k: nat, n: string): (r: nat)
    requires k <= |records|
    ensures k <= r <= |records| && (r < |records| ==> records[r].Local? && records[r].name == n)
    ensures forall i :: k <= i < r ==> !(records[i].Local? && records[i].name == n)
    decreases |records| - k
  {
    if k == |records| || (records[k].Local? && records[k].name == n) then k else FirstOf(records, k + 1, n)
  }

  datatype SetResult = Done | ReadOnly

  class VarTable {
    const chains: array<seq<Entry<Var>>>
    var texts: map<nat, string>
    var nexttext: nat
    // the records, those of the function running from base on
    var records: seq<Record>
    var base: nat
    var optlist: string
    var aflag: bool
    ghost var vars: map<string, Var>
    ghost var owner: map<nat, string>
    ghost var before: seq<Option<string>>

    ghost predicate Valid()
      reads this, chains
    {
      && Agrees(chains[..], vars) && Sound(vars, texts, owner, records, before) && base <= |records|
      && (forall t :: t in texts || t in owner ==> t < nexttext)
    }

    constructor (optlist: string)
      ensures Valid() && fresh(chains) && vars == map[] && records == [] && this.optlist == optlist
    {
      chains := new seq<Entry<Var>>[VTABSIZE](_ => []);
      texts, nexttext, records, base, aflag, vars, owner, before := map[], 0, [], 0, false, map[], map[], [];
      this.optlist := optlist;
      new;
      assert forall b :: 0 <= b < VTABSIZE ==> chains[..][b] == [];
    }

    /** lookupvar. */
    ghost function Lookup(n: string): (r: Option<string>)
      reads this
    {
      Value(vars, texts, n)
    }

    method FindVar(n: string) returns (r: Option<Var>)
      requires Agrees(chains[..], vars)
      ensures r == if n in vars then Some(vars[n]) else None
    {
      var b := HashValue(n);
      var i := FindPlace(chains[b], n);
      assert Get(chains[..][Hash(n)], n) == if n in vars then Some(vars[n]) else None;
      r := if i < |chains[b]| then Some(chains[b][i].item) else None;
    }

    /** The fields of a variable's struct change. */
    method Update(n: string, v: Var)
      requires Agrees(chains[..], vars) && n in vars
      modifies chains, this`vars
      ensures Agrees(chains[..], vars) && vars == old(vars)[n := v]
    {
      hide Agrees;
      AgreesStored(chains[..], vars, n, v);
      TableSize(chains[..], vars);
      var b := HashValue(n);
      var i := FindPlace(chains[b], n);
      ghost var was := chains[..];
      chains[b] := chains[b][i := Entry(n, v)];
      assert chains[..] == was[b := was[b][i := Entry(n, v)]];
      vars := vars[n := v];
    }

    /** A new struct at the head of its chain. */
    method Insert(n: string, v: Var)
      requires Agrees(chains[..], vars) && n !in vars
      modifies chains, this`vars
      ensures Agrees(chains[..], vars) && vars == old(vars)[n := v]
    {
      hide Agrees;
      AgreesPrepended(chains[..], vars, n, v);
      TableSize(chains[..], vars);
      var b := HashValue(n);
      ghost var was := chains[..];
      chains[b] := [Entry(n, v)] + chains[b];
      assert chains[..] == was[b := [Entry(n, v)] + was[b]];
      vars := vars[n := v];
    }

    method Delete(n: string)
      requires Agrees(chains[..], vars) && n in vars
      modifies chains, this`vars
      ensures Agrees(chains[..], vars) && vars == old(vars) - {n}
    {
      hide Agrees;
      AgreesRemoved(chains[..], vars, n);
      TableSize(chains[..], vars);
      var b := HashValue(n);
      var i := FindPlace(chains[b], n);
      ghost var was := chains[..];
      chains[b] := chains[b][..i] + chains[b][i + 1..];
      assert chains[..] == was[b := Without(was[b], i)];
      vars := vars - {n};
    }

    // ----- Setting and unsetting -----

    /** A text is allocated. */
    method NewText(value: string) returns (t: nat)
      modifies this`texts, this`nexttext
      ensures t == old(nexttext) && nexttext == t + 1 && texts == old(texts)[t := value]
    {
      t := nexttext;
      texts, nexttext := texts[t := value], nexttext + 1;
    }

    /** ckfree, of a text that is there. */
    method FreeText(t: nat)
      requires t in texts
      modifies this`texts
      ensures texts == old(texts) - {t}
    {
      texts := texts - {t};
    }

    /** A variable gets a new text. The one it had is freed unless it is marked. */
    method PutText(n: string, value: string, v: Var)
      requires Valid() && v.text == nexttext && (n in vars ==> (vars[n].flags.strFixed ==> v.flags.strFixed))
      modifies chains, this`texts, this`nexttext, this`vars, this`owner
      ensures Valid() && vars == old(vars)[n := v] && Lookup(n) == (if v.flags.unset then None else Some(value))
      ensures OnlyChanged(old(vars), old(texts), vars, texts, n)
    {
      hide Agrees, Sound, OnlyChanged, Value;
      SetKeeps(vars, texts, owner, records, before, n, nexttext, value, v);
      TextThere(vars, texts, owner, records, before, n);
      owner := owner[nexttext := n];
      var vp := FindVar(n);
      if vp.Some? {
        if !vp.value.flags.textFixed { FreeText(vp.value.text); }
        var t := NewText(value);
        Update(n, v);
      } else {
        var t := NewText(value);
        Insert(n, v);
      }
    }

    /** setvareq: the value of a variable, unless it is readonly. With noSet, only that is tested. */
    method SetVarEq(n: string, value: string, flags: Flags, noSet: bool) returns (r: SetResult)
      requires Valid()
      modifies chains, this`texts, this`nexttext, this`vars, this`owner
      ensures Valid() && (r == ReadOnly <==> n in old(vars) && old(vars)[n].flags.readonly)
      ensures r == ReadOnly || noSet ==> vars == old(vars) && texts == old(texts)
      ensures r == Done && !noSet ==>
                && Lookup(n) == (if flags.unset then None else Some(value))
                && vars == old(vars)[n := AfterSet(old(vars), n, old(nexttext), if aflag then flags.(export_ := true)
                                                   else flags)]
      ensures r == Done && !noSet ==>
                && n in vars && vars[n].flags.readonly == flags.readonly
                && (vars[n].flags.export_ <==> flags.export_ || aflag || (n in old(vars) && old(vars)[n].flags.export_))
                && (vars[n].flags.strFixed <==> flags.strFixed || (n in old(vars) && old(vars)[n].flags.strFixed))
      ensures OnlyChanged(old(vars), old(texts), vars, texts, n)
    {
      hide Agrees, Sound, OnlyChanged, Value, Or, SetFlags;
      Unchanged(vars, texts, n);
      var f := if aflag then flags.(export_ := true) else flags;
      var vp := FindVar(n);
      if vp.Some? && vp.value.flags.readonly { return ReadOnly; }
      if noSet { return Done; }
      if vp.Some? {
        SetMarks(vp.value.flags, f);
        PutText(n, value, Var(SetFlags(vp.value.flags, f), nexttext, vp.value.func));
      } else {
        PutText(n, value, Var(f.(noFunc := false), nexttext, false));
      }
      return Done;
    }

    /** setvar: a value, or none. */
    method SetVar(n: string, value: Option<string>, flags: Flags) returns (r: SetResult)
      requires Valid()
      modifies chains, this`texts, this`nexttext, this`vars, this`owner
      ensures Valid() && (r == ReadOnly <==> n in old(vars) && old(vars)[n].flags.readonly)
      ensures r == ReadOnly ==> vars == old(vars) && texts == old(texts)
      ensures r == Done ==>
                && Lookup(n) == (if flags.unset then None else value)
                && vars == old(vars)[n := AfterSet(old(vars), n, old(nexttext),
                                                  (if aflag then flags.(export_ := true)
                                                   else flags).(unset := flags.unset || value.None?))]
      ensures r == Done ==>
                && n in vars && vars[n].flags.readonly == flags.readonly
                && (vars[n].flags.export_ <==> flags.export_ || aflag || (n in old(vars) && old(vars)[n].flags.export_))
                && (vars[n].flags.strFixed <==> flags.strFixed || (n in old(vars) && old(vars)[n].flags.strFixed))
      ensures OnlyChanged(old(vars), old(texts), vars, texts, n)
    {
      hide Agrees, Sound, OnlyChanged, Value;
      if value.None? { r := SetVarEq(n, "", flags.(unset := true), false); }
          else { r := SetVarEq(n, value.value, flags, false); }
    }

    /** The flags of a variable change; a fixed struct or text stays fixed. */
    method PutFlags(n: string, f: Flags)
      requires Valid() && n in vars
      requires (vars[n].flags.strFixed ==> f.strFixed) && (vars[n].flags.textFixed ==> f.textFixed)
      modifies chains, this`vars
      ensures Valid() && vars == old(vars)[n := old(vars)[n].(flags := f)]
      ensures f.unset == old(vars)[n].flags.unset ==> Lookup(n) == old(Lookup(n))
      ensures OnlyChanged(old(vars), old(texts), vars, texts, n)
    {
      hide Agrees, Sound, OnlyChanged;
      var vp := FindVar(n);
      FlagsKeep(vars, texts, owner, records, before, n, f);
      Update(n, vp.value.(flags := f));
    }

    /** The export and readonly commands, for a variable that is there. */
    method AddFlags(n: string, flags: Flags)
      requires Valid() && n in vars && !flags.unset
      modifies chains, this`vars
      ensures Valid() && vars == old(vars)[n := old(vars)[n].(flags := Or(old(vars)[n].flags, flags))]
              && Lookup(n) == old(Lookup(n))
      ensures vars[n].flags.export_ <==> flags.export_ || old(vars)[n].flags.export_
      ensures vars[n].flags.readonly <==> flags.readonly || old(vars)[n].flags.readonly
      ensures OnlyChanged(old(vars), old(texts), vars, texts, n)
    {
      hide Agrees, Sound, OnlyChanged;
      var vp := FindVar(n);
      PutFlags(n, Or(vp.value.flags, flags));
    }

    /** The variable has no value, and goes unless its struct is fixed. */
    method Forget(n: string)
      requires Valid() && n in vars
      modifies chains, this`texts, this`vars
      ensures Valid() && Lookup(n) == None && OnlyChanged(old(vars), old(texts), vars, texts, n)
      ensures if old(vars)[n].flags.strFixed then vars
              == old(vars)[n := old(vars)[n].(flags := old(vars)[n].flags.(export_ := false, unset := true))]
              else n !in vars
    {
      hide Agrees, Sound, OnlyChanged;
      var vp := FindVar(n);
      var f := vp.value.flags.(export_ := false, unset := true);
      PutFlags(n, f);
      if !f.strFixed {
        ghost var vars', texts' := vars, texts;
        TextThere(vars, texts, owner, records, before, n);
        DeleteKeeps(vars, texts, owner, records, before, n);
        if !f.textFixed { FreeText(vp.value.text); }
        Delete(n);
        OnlyThese(old(vars), old(texts), vars', texts', vars, texts, n);
      }
    }

    /** unsetvar. A readonly variable stays; with unexport only the export mark goes. */
    method UnsetVar(n: string, unexport: bool) returns (missing: bool)
      requires Valid()
      modifies chains, this`texts, this`nexttext, this`vars, this`owner
      ensures Valid() && missing == (n !in old(vars) || old(vars)[n].flags.readonly)
      ensures missing ==> vars == old(vars) && texts == old(texts)
      ensures !missing && unexport ==>
                vars == old(vars)[n := old(vars)[n].(flags := old(vars)[n].flags.(export_ := false))]
                    && texts == old(texts)
      ensures !missing && !unexport ==> Lookup(n) == None && (n in vars <==> old(vars)[n].flags.strFixed)
      ensures !missing && !unexport && n in vars ==>
                !vars[n].flags.export_ && !vars[n].flags.readonly && vars[n].flags.strFixed
      ensures OnlyChanged(old(vars), old(texts), vars, texts, n)
    {
      hide Agrees, Sound, OnlyChanged, Value;
      Unchanged(vars, texts, n);
      var vp := FindVar(n);
      if vp.None? || vp.value.flags.readonly { return true; }
      missing := false;
      var v := vp.value;
      TextThere(vars, texts, owner, records, before, n);
      if unexport {
        PutFlags(n, v.flags.(export_ := false));
        return;
      }
      if texts[v.text] != "" { var r := SetVar(n, Some(""), PLAIN); }
      ghost var vars', texts' := vars, texts;
      Forget(n);
      OnlyThese(old(vars), old(texts), vars', texts', vars, texts, n);
    }

    // ----- Functions -----

    /** A record is added; before says what the variable was. */
    ghost predicate Recorded(records0: seq<Record>, before0: seq<Option<string>>, n: string, was: Option<string>)
      reads this
    {
      && |records| == |records0| + 1 && records[..|records0|] == records0 && before == before0 + [was]
      && (if n == "-" then records[|records0|].Options?
          else records[|records0|].Local? && records[|records0|].name == n)
    }

    /** The record of a variable that is there. */
    method SaveVar(n: string)
      requires Valid() && n in vars && n != "-"
      modifies chains, this`vars, this`records, this`before
      ensures Valid() && Recorded(old(records), old(before), n, old(Lookup(n)))
      ensures records[|records| - 1] == Local(n, old(vars)[n].flags, Some(old(vars)[n].text))
      ensures Lookup(n) == old(Lookup(n)) && OnlyChanged(old(vars), old(texts), vars, texts, n)
      ensures vars == old(vars)[n := old(vars)[n].(flags := old(vars)[n].flags.(strFixed := true, textFixed := true))]
    {
      hide Agrees, Sound, OnlyChanged;
      var vp := FindVar(n);
      var v := vp.value;
      SaveKeeps(vars, texts, owner, records, before, n);
      FlagsKeep(vars, texts, owner, records, before, n, v.flags.(strFixed := true, textFixed := true));
      before := before + [Value(vars, texts, n)];
      records := records + [Local(n, v.flags, Some(v.text))];
      Update(n, v.(flags := v.flags.(strFixed := true, textFixed := true)));
    }

    /** mklocal: remember a variable, or the options, until the function returns. A new variable has no
        value unless one is given; one that is there keeps its value. Giving a value to a readonly
        variable is an error, and nothing is remembered. */
    method MkLocal(n: string, value: Option<string>, flags: Flags) returns (r: SetResult)
      requires Valid() && (n == "-" ==> value == None)
      modifies chains, this`texts, this`nexttext, this`vars, this`owner, this`records, this`before
      ensures Valid() && (r == ReadOnly <==> n != "-" && n in old(vars) && value.Some? && old(vars)[n].flags.readonly)
      ensures r == Done ==> Recorded(old(records), old(before), n, if n == "-" then None else old(Lookup(n)))
      ensures r == Done && n == "-" ==> records[|records| - 1] == Options(optlist)
      ensures r == Done && n != "-" && n in old(vars) ==>
                records[|records| - 1] == Local(n, old(vars)[n].flags, Some(old(vars)[n].text))
      ensures r == Done && n != "-" ==>
                (IsFresh(records[|records| - 1]) <==>
                 n !in old(vars) || (old(vars)[n].flags.unset && !old(vars)[n].flags.strFixed))
      ensures r == ReadOnly ==> records == old(records) && before == old(before)
      ensures r == Done && n != "-" ==>
                Lookup(n) == if value.Some? then (if flags.unset then None else value) else old(Lookup(n))
      ensures r == ReadOnly || n == "-" ==> Lookup(n) == old(Lookup(n))
      ensures r == Done && n != "-" ==>
                var given := value.Some? || n !in old(vars);
                && n in vars && vars[n].flags.strFixed
                && (vars[n].flags.export_ <==>
                      (n in old(vars) && old(vars)[n].flags.export_) || (given && (flags.export_ || aflag)))
                && (vars[n].flags.readonly <==>
                      (n in old(vars) && old(vars)[n].flags.readonly) || (given && flags.readonly))
      ensures OnlyChanged(old(vars), old(texts), vars, texts, n)
    {
      hide Agrees, Sound, OnlyChanged, Value, Or, SetFlags, AfterSet;
      NoValue(vars, texts, n);
      Unchanged(vars, texts, n);
      if n == "-" {
        OptionsKeep(vars, texts, owner, records, before, optlist);
        records, before := records + [Options(optlist)], before + [None];
        return Done;
      }
      var vp := FindVar(n);
      if vp.None? {
        NotLocal(vars, texts, owner, records, before, n);
        r := SetVar(n, value, flags.(strFixed := true));
        NewKeeps(vars, texts, owner, records, before, n);
        records, before := records + [Local(n, PLAIN.(unset := true), None)], before + [None];
      } else if value.Some? && vp.value.flags.readonly {
        PutFlags(n, vp.value.flags.(strFixed := true, textFixed := true));
        return ReadOnly;
      } else {
        SaveVar(n);
        r := Done;
        if value.Some? {
          ghost var vars', texts' := vars, texts;
          r := SetVarEq(n, value.value, flags, false);
          OnlyThese(old(vars), old(texts), vars', texts', vars, texts, n);
        }
      }
    }

    /** One record is undone: the variable has its value from before again, unless it was new and has
        become readonly. The function of a variable is called for its old value. */
    method UndoLast()
      requires Valid() && |records| > base && |before| == |records|
      modifies chains, this`texts, this`nexttext, this`vars, this`owner, this`records, this`before, this`optlist
      ensures Valid() && records == old(records)[..|old(records)| - 1] && before == old(before)[..|old(before)| - 1]
      ensures UndoneBy(old(records)[|old(records)| - 1], old(before)[|old(before)| - 1], old(vars), old(texts), vars,
                       texts)
      ensures optlist == match old(records)[|old(records)| - 1] case Options(opts) => opts case _ => old(optlist)
    {
      hide Agrees, Sound, OnlyChanged, Value;
      var last := |records| - 1;
      var r := records[last];
      LastRecord(vars, texts, owner, records, before);
      DropKeeps(vars, texts, owner, records, before);
      match r
      case Options(opts) =>
        records, before, optlist := records[..last], before[..last], opts;
      case Local(n, flags, text) =>
        if flags.unset && !flags.strFixed {
          records, before := records[..last], before[..last];
          var missing := UnsetVar(n, false);
        } else {
          var vp := FindVar(n);
          RestoreKeeps(vars, texts, owner, records, before);
          if !vp.value.flags.textFixed { FreeText(vp.value.text); }
          records, before := records[..last], before[..last];
          Update(n, vp.value.(flags := flags, text := text.value));
        }
    }

    /** poplocalvars. Every name that was made local has the value it had before that, other names are
        as they were left; a variable that was new and is readonly now is not undone. */
    method PopLocalVars()
      requires Valid()
      modifies chains, this`texts, this`nexttext, this`vars, this`owner, this`records, this`before, this`optlist
      ensures Valid() && records == old(records)[..base] && before == old(before)[..base]
      ensures |old(before)| == |old(records)|
      ensures forall n {:trigger Undone(n, base, vars, texts, old(vars), old(texts), old(records), old(before))} ::
                Undone(n, base, vars, texts, old(vars), old(texts), old(records), old(before))
      ensures var o := FirstOptions(old(records), base);
              optlist == if o < |old(records)| then old(records)[o].opts else old(optlist)
    {
      hide Agrees, Sound, OnlyChanged, Value;
      ghost var vars0, texts0, records0, before0, k := vars, texts, records, before, |records|;
      SameCount(vars, texts, owner, records, before);
      assert records0[..k] == records0 && before0[..k] == before0;
      while |records| > base
        invariant Valid() && base <= k <= |records0| == |before0| && records == records0[..k] && before == before0[..k]
        invariant forall n {:trigger Undone(n, k, vars, texts, vars0, texts0, records0, before0)} ::
                    Undone(n, k, vars, texts, vars0, texts0, records0, before0)
        invariant var o := FirstOptions(records0, k); optlist == if o < |records0| then records0[o].opts
                  else old(optlist)
        decreases k
      {
        ghost var vars', texts' := vars, texts;
        label Before:
        UndoLast();
        forall n {:trigger Undone(n, k - 1, vars, texts, vars0, texts0, records0, before0)}
          ensures Undone(n, k - 1, vars, texts, vars0, texts0, records0, before0)
        {
          UndoneNext(n, k - 1, vars', texts', vars, texts, vars0, texts0, records0, before0);
        }
        k := k - 1;
      }
    }

    /** A function is called: what it makes local is kept apart from what its caller did. */
    method EnterFunction() returns (saved: nat)
      requires Valid()
      modifies this`base
      ensures Valid() && saved == old(base) && base == |records|
    {
      saved := base;
      base := |records|;
    }

    /** It returns: what it made local is undone, and what its caller did is still to be undone. */
    method LeaveFunction(saved: nat)
      requires Valid() && saved <= base
      modifies chains, this`texts, this`nexttext, this`vars, this`owner, this`records, this`before, this`optlist,
          this`base
      ensures Valid() && base == saved && |old(before)| == |old(records)|
      ensures records == old(records)[..old(base)] && before == old(before)[..old(base)]
      ensures forall n {:trigger Undone(n, old(base), vars, texts, old(vars), old(texts), old(records), old(before))} ::
                Undone(n, old(base), vars, texts, old(vars), old(texts), old(records), old(before))
    {
      PopLocalVars();
      base := saved;
    }
  }

  lemma NoValue(vars: map<string, Var>, texts: map<nat, string>, n: string)
    ensures n !in vars ==> Value(vars, texts, n) == None
  {
  }

  lemma NotLocal(vars: map<string, Var>, texts: map<nat, string>, owner: map<nat, string>,
                 records: seq<Record>, before: seq<Option<string>>, n: string)
    requires Sound(vars, texts, owner, records, before) && n !in vars
    ensures forall k {:trigger records[k]} :: 0 <= k < |records| && records[k].Local? ==> records[k].name != n
  {
    forall k {:trigger records[k]} | 0 <= k < |records| && records[k].Local?
      ensures records[k].name != n
    {
      assert RecordRight(vars, texts, owner, records[k]);
    }
  }

  /** What a name is after the records from k on are undone. */
  ghost predicate Undone(n: string, k: nat, vars: map<string, Var>, texts: map<nat, string>, vars0: map<string, Var>,
                         texts0: map<nat, string>, records0: seq<Record>, before0: seq<Option<string>>)
    requires k <= |records0| == |before0|
  {
    var first := FirstOf(records0, k, n);
    if first == |records0| then
      Value(vars, texts, n) == Value(vars0, texts0, n) && (n in vars <==> n in vars0)
          && (n in vars ==> vars[n] == vars0[n])
    else
      && (Value(vars, texts, n) == before0[first] || (IsFresh(records0[first]) && n in vars && vars[n].flags.readonly))
      && n in vars && (!IsFresh(records0[first]) ==> vars[n].flags == records0[first].flags)
      && (IsFresh(records0[first]) ==> vars[n].flags.export_ ==> vars[n].flags.readonly)
  }

  /** What undoing record k makes of a variable. */
  ghost predicate UndoneBy(r: Record, was: Option<string>, vars: map<string, Var>, texts: map<nat, string>,
                           vars': map<string, Var>, texts': map<nat, string>)
  {
    match r
    case Options(_) => vars' == vars && texts' == texts
    case Local(n, _, _) =>
      && n in vars && OnlyChanged(vars, texts, vars', texts', n)
      && Value(vars', texts', n) == (if IsFresh(r) && vars[n].flags.readonly then Value(vars, texts, n) else was)
      && n in vars' && (!IsFresh(r) ==> vars'[n].flags == r.flags)
      && (IsFresh(r) ==> vars'[n].flags.readonly == vars[n].flags.readonly)
      && (IsFresh(r) ==> vars'[n].flags.export_ == (vars[n].flags.readonly && vars[n].flags.export_))
  }

  /** A variable that was exported before it was made local, and is not readonly after that is undone, is exported
      then if and only if it had a value or its struct was fixed. */
  lemma ExportAfter(n: string, k: nat, vars: map<string, Var>, texts: map<nat, string>, vars0: map<string, Var>,
                    texts0: map<nat, string>, records0: seq<Record>, before0: seq<Option<string>>)
    requires k <= |records0| == |before0| && Undone(n, k, vars, texts, vars0, texts0, records0, before0)
    requires FirstOf(records0, k, n) < |records0| && records0[FirstOf(records0, k, n)].flags.export_
    requires n in vars && !vars[n].flags.readonly
    ensures var f := records0[FirstOf(records0, k, n)].flags;
            vars[n].flags.export_ <==> !f.unset || f.strFixed
  {
  }

  lemma UndoneNext(n: string, k: nat, vars: map<string, Var>, texts: map<nat, string>, vars': map<string, Var>,
                   texts': map<nat, string>, vars0: map<string, Var>, texts0: map<nat, string>, records0: seq<Record>,
                   before0: seq<Option<string>>)
    requires k < |records0| == |before0| && Undone(n, k + 1, vars, texts, vars0, texts0, records0, before0)
    requires UndoneBy(records0[k], before0[k], vars, texts, vars', texts')
    ensures Undone(n, k, vars', texts', vars0, texts0, records0, before0)
  {
    if records0[k].Local? && records0[k].name != n {
      assert Value(vars', texts', n) == Value(vars, texts, n);
    }
  }

  /** The first saved options from k on. */
  function FirstOptions(records: seq<Record>, k: nat): (r: nat)
    requires k <= |records|
    ensures k <= r <= |records| && (r < |records| ==> records[r].Options?)
    decreases |records| - k
  {
    if k == |records| || records[k].Options? then k else FirstOptions(records, k + 1)
  }

  lemma SameCount(vars: map<string, Var>, texts: map<nat, string>, owner: map<nat, string>,
                  records: seq<Record>, before: seq<Option<string>>)
    requires Sound(vars, texts, owner, records, before)
    ensures |before| == |records|
  {
  }

  /** The last record: its variable is in the table, with a fixed struct. */
  lemma LastRecord(vars: map<string, Var>, texts: map<nat, string>, owner: map<nat, string>,
                   records: seq<Record>, before: seq<Option<string>>)
    requires Sound(vars, texts, owner, records, before) && records != []
    ensures |before| == |records|
    ensures var r := records[|records| - 1];
            r.Local? ==>
              && r.name in vars && vars[r.name].flags.strFixed && vars[r.name].text in texts
              && (!IsFresh(r) ==> r.text.Some?) && (IsFresh(r) ==> before[|records| - 1] == None)
  {
    var k := |records| - 1;
    assert RecordRight(vars, texts, owner, records[k]) && before[k] == SavedValue(texts, records[k]);
  }

  /** What setvareq leaves as flags. */
  function SetFlags(was: Flags, flags: Flags): (r: Flags) {
    Or(was.(textFixed := false, unset := false), flags.(noFunc := false))
  }

  /** A variable after setvareq. */
  function AfterSet(vars: map<string, Var>, n: string, t: nat, flags: Flags): (r: Var) {
    if n in vars then Var(SetFlags(vars[n].flags, flags), t, vars[n].func) else Var(flags.(noFunc := false), t, false)
  }

  /** What setvareq does to the marks of a variable. */
  lemma SetMarks(was: Flags, flags: Flags)
    ensures var f := SetFlags(was, flags);
            && f.readonly == (was.readonly || flags.readonly) && f.export_ == (was.export_ || flags.export_)
            && f.strFixed == (was.strFixed || flags.strFixed) && f.unset == flags.unset
  {
  }

  lemma Unchanged(vars: map<string, Var>, texts: map<nat, string>, n: string)
    ensures OnlyChanged(vars, texts, vars, texts, n)
  {
  }

  lemma TextThere(vars: map<string, Var>, texts: map<nat, string>, owner: map<nat, string>,
                  records: seq<Record>, before: seq<Option<string>>, n: string)
    requires Sound(vars, texts, owner, records, before)
    ensures n in vars ==> vars[n].text in texts
  {
  }

  lemma TableSize(chains: seq<seq<Entry<Var>>>, vars: map<string, Var>)
    requires Agrees(chains, vars)
    ensures |chains| == VTABSIZE
  {
  }
}
