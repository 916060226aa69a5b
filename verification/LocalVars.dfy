/** Shell variables, and the saved values of those that are local to functions. */
module LocalVars {
  import opened Bytes

  /** The flags of a variable. Texts on the stack are not part of this model. */
  datatype Flags = Flags(export_: bool, readonly: bool, strFixed: bool, textFixed: bool, unset: bool, noFunc: bool)

  const PLAIN := Flags(false, false, false, false, false, false)

  function Or(f: Flags, g: Flags): (r: Flags) {
    Flags(f.export_ || g.export_, f.readonly || g.readonly, f.strFixed || g.strFixed, f.textFixed || g.textFixed,
          f.unset || g.unset, f.noFunc || g.noFunc)
  }

  /** A variable: text is where its value is kept, func whether a function is called when it is set. */
  datatype Var = Var(flags: Flags, text: nat, func: bool)

  /** What mklocal saves: a variable (without a text if there was none of that name), or the options. */
  datatype Record = Local(name: string, flags: Flags, text: Option<nat>) | Options(opts: string)

  /** The value of a variable, as lookupvar gives it. */
  function Value(vars: map<string, Var>, texts: map<nat, string>, n: string): (r: Option<string>) {
    if n in vars && !vars[n].flags.unset && vars[n].text in texts then Some(texts[vars[n].text]) else None
  }

  function SavedValue(texts: map<nat, string>, r: Record): (v: Option<string>) {
    if r.Local? && r.text.Some? && !r.flags.unset && r.text.value in texts then Some(texts[r.text.value]) else None
  }

  /** poplocalvars undoes this record by unsetting the variable. */
  predicate IsFresh(r: Record) {
    r.Local? && r.flags.unset && !r.flags.strFixed
  }

  /** No other variable than n has another value. */
  ghost predicate OnlyChanged(vars: map<string, Var>, texts: map<nat, string>, vars': map<string, Var>,
                              texts': map<nat, string>, n: string) {
    forall m {:trigger Value(vars', texts', m)} :: m != n ==>
      Value(vars', texts', m) == Value(vars, texts, m) && (m in vars' <==> m in vars)
          && (m in vars ==> vars'[m] == vars[m])
  }

  lemma OnlyThese(vars: map<string, Var>, texts: map<nat, string>, vars': map<string, Var>, texts': map<nat, string>,
                  vars'': map<string, Var>, texts'': map<nat, string>, n: string)
    requires OnlyChanged(vars, texts, vars', texts', n) && OnlyChanged(vars', texts', vars'', texts'', n)
    ensures OnlyChanged(vars, texts, vars'', texts'', n)
  {
    forall m {:trigger Value(vars'', texts'', m)} | m != n
      ensures Value(vars'', texts'', m) == Value(vars, texts, m) && (m in vars'' <==> m in vars)
    {
      assert Value(vars', texts', m) == Value(vars, texts, m);
    }
    forall m | m != n && m in vars
      ensures m in vars'' && vars''[m] == vars[m]
    {
      assert Value(vars', texts', m) == Value(vars, texts, m) && Value(vars'', texts'', m) == Value(vars', texts', m);
    }
  }

  // ----- Who uses which text -----

  /** The text is there, and belongs to the name. */
  predicate Owns(texts: map<nat, string>, owner: map<nat, string>, t: nat, n: string) {
    t in texts && t in owner && owner[t] == n
  }

  /** Every variable has its text, and no other variable has it. */
  ghost predicate TextsRight(vars: map<string, Var>, texts: map<nat, string>, owner: map<nat, string>) {
    forall n :: n in vars ==> Owns(texts, owner, vars[n].text, n)
  }

  /** A saved variable is still in the table, cannot be freed, and its saved text is still there. Where it
      is the text of the variable itself, it is marked so that it will not be freed either. */
  ghost predicate RecordRight(vars: map<string, Var>, texts: map<nat, string>, owner: map<nat, string>, r: Record) {
    r.Local? ==>
      && r.name in vars && vars[r.name].flags.strFixed
      && (r.text.None? ==> IsFresh(r))
      && (r.text.Some? ==>
            && Owns(texts, owner, r.text.value, r.name)
            && (vars[r.name].text == r.text.value ==> vars[r.name].flags.textFixed))
  }

  /** Of two records of one variable, the later one was saved when the earlier was there already. */
  predicate PairRight(r: Record, later: Record) {
    r.Local? && later.Local? && r.name == later.name ==>
      later.flags.strFixed && later.text.Some? && (r.text == later.text ==> later.flags.textFixed)
  }

  ghost predicate RecordsRight(vars: map<string, Var>, texts: map<nat, string>, owner: map<nat, string>,
                               records: seq<Record>) {
    && (forall k {:trigger records[k]} :: 0 <= k < |records| ==> RecordRight(vars, texts, owner, records[k]))
    && (forall i, j {:trigger records[i], records[j]} :: 0 <= i < j < |records| ==> PairRight(records[i], records[j]))
  }

  /** The values that were saved are those that the variables had. */
  ghost predicate ValuesRight(texts: map<nat, string>, records: seq<Record>, before: seq<Option<string>>) {
    |before| == |records| && forall k {:trigger records[k]} :: 0 <= k < |records| ==>
        before[k] == SavedValue(texts, records[k])
  }

  ghost predicate Sound(vars: map<string, Var>, texts: map<nat, string>, owner: map<nat, string>,
                        records: seq<Record>, before: seq<Option<string>>) {
    TextsRight(vars, texts, owner) && RecordsRight(vars, texts, owner, records) && ValuesRight(texts, records, before)
  }

  /** A text that a variable gives up may be freed unless it is marked: no record has it. */
  lemma NotSaved(vars: map<string, Var>, texts: map<nat, string>, owner: map<nat, string>,
                 records: seq<Record>, before: seq<Option<string>>, n: string)
    requires Sound(vars, texts, owner, records, before) && n in vars && !vars[n].flags.textFixed
    ensures forall k {:trigger records[k]} :: 0 <= k < |records| && records[k].Local? ==>
              records[k].text != Some(vars[n].text)
    ensures forall m :: m in vars && m != n ==> vars[m].text != vars[n].text
  {
    forall k {:trigger records[k]} | 0 <= k < |records| && records[k].Local?
      ensures records[k].text != Some(vars[n].text)
    {
      assert RecordRight(vars, texts, owner, records[k]);
    }
  }

  /** The texts after a variable got a new one. */
  function Freed(texts: map<nat, string>, v: Var): (r: map<nat, string>) {
    if v.flags.textFixed then texts else texts - {v.text}
  }

  /** A variable gets a new text, and keeps its struct if that is fixed. */
  lemma SetKeeps(vars: map<string, Var>, texts: map<nat, string>, owner: map<nat, string>,
                 records: seq<Record>, before: seq<Option<string>>, n: string, t: nat, value: string, v: Var)
    requires Sound(vars, texts, owner, records, before) && t !in owner && t !in texts && v.text == t
    requires n in vars ==> (vars[n].flags.strFixed ==> v.flags.strFixed)
    ensures var texts' := if n in vars then Freed(texts, vars[n]) else texts;
            && Sound(vars[n := v], texts'[t := value], owner[t := n], records, before)
            && OnlyChanged(vars, texts, vars[n := v], texts'[t := value], n)
            && Value(vars[n := v], texts'[t := value], n) == (if v.flags.unset then None else Some(value))
  {
    if n in vars && !vars[n].flags.textFixed { NotSaved(vars, texts, owner, records, before, n); }
    var texts' := (if n in vars then Freed(texts, vars[n]) else texts)[t := value];
    forall k {:trigger records[k]} | 0 <= k < |records|
      ensures RecordRight(vars[n := v], texts', owner[t := n], records[k])
              && before[k] == SavedValue(texts', records[k])
    {
      assert RecordRight(vars, texts, owner, records[k]);
    }
  }

  /** Only flags change; a fixed struct or text stays fixed. */
  lemma FlagsKeep(vars: map<string, Var>, texts: map<nat, string>, owner: map<nat, string>,
                  records: seq<Record>, before: seq<Option<string>>, n: string, f: Flags)
    requires Sound(vars, texts, owner, records, before) && n in vars
    requires (vars[n].flags.strFixed ==> f.strFixed) && (vars[n].flags.textFixed ==> f.textFixed)
    ensures Sound(vars[n := vars[n].(flags := f)], texts, owner, records, before)
    ensures OnlyChanged(vars, texts, vars[n := vars[n].(flags := f)], texts, n)
  {
    forall k {:trigger records[k]} | 0 <= k < |records|
      ensures RecordRight(vars[n := vars[n].(flags := f)], texts, owner, records[k])
    {
      assert RecordRight(vars, texts, owner, records[k]);
    }
  }

  /** A variable without a fixed struct is deleted: no record is about it. */
  lemma DeleteKeeps(vars: map<string, Var>, texts: map<nat, string>, owner: map<nat, string>,
                    records: seq<Record>, before: seq<Option<string>>, n: string)
    requires Sound(vars, texts, owner, records, before) && n in vars && !vars[n].flags.strFixed
    ensures Sound(vars - {n}, Freed(texts, vars[n]), owner, records, before)
    ensures OnlyChanged(vars, texts, vars - {n}, Freed(texts, vars[n]), n)
  {
    if !vars[n].flags.textFixed { NotSaved(vars, texts, owner, records, before, n); }
    forall k {:trigger records[k]} | 0 <= k < |records|
      ensures RecordRight(vars - {n}, Freed(texts, vars[n]), owner, records[k])
      ensures before[k] == SavedValue(Freed(texts, vars[n]), records[k])
    {
      assert RecordRight(vars, texts, owner, records[k]);
    }
  }

  /** An existing variable is saved, and marked so that neither its struct nor its text is freed. */
  lemma SaveKeeps(vars: map<string, Var>, texts: map<nat, string>, owner: map<nat, string>,
                  records: seq<Record>, before: seq<Option<string>>, n: string)
    requires Sound(vars, texts, owner, records, before) && n in vars
    ensures var v := vars[n];
            Sound(vars[n := v.(flags := v.flags.(strFixed := true, textFixed := true))], texts, owner,
                  records + [Local(n, v.flags, Some(v.text))], before + [Value(vars, texts, n)])
  {
    var v := vars[n];
    var f := v.flags.(strFixed := true, textFixed := true);
    var r := Local(n, v.flags, Some(v.text));
    FlagsKeep(vars, texts, owner, records, before, n, f);
    forall k {:trigger records[k]} | 0 <= k < |records|
      ensures PairRight(records[k], r)
    {
      assert RecordRight(vars, texts, owner, records[k]);
    }
  }

  /** A variable just made is recorded as new. */
  lemma NewKeeps(vars: map<string, Var>, texts: map<nat, string>, owner: map<nat, string>,
                 records: seq<Record>, before: seq<Option<string>>, n: string)
    requires Sound(vars, texts, owner, records, before) && n in vars && vars[n].flags.strFixed
    requires forall k {:trigger records[k]} :: 0 <= k < |records| && records[k].Local? ==> records[k].name != n
    ensures Sound(vars, texts, owner, records + [Local(n, PLAIN.(unset := true), None)], before + [None])
  {
  }

  /** The options are saved. */
  lemma OptionsKeep(vars: map<string, Var>, texts: map<nat, string>, owner: map<nat, string>,
                    records: seq<Record>, before: seq<Option<string>>, opts: string)
    requires Sound(vars, texts, owner, records, before)
    ensures Sound(vars, texts, owner, records + [Options(opts)], before + [None])
  {
  }

  lemma DropKeeps(vars: map<string, Var>, texts: map<nat, string>, owner: map<nat, string>,
                  records: seq<Record>, before: seq<Option<string>>)
    requires Sound(vars, texts, owner, records, before) && records != []
    ensures Sound(vars, texts, owner, records[..|records| - 1], before[..|records| - 1])
  {
    var k := |records| - 1;
    assert forall i :: 0 <= i < k ==> records[..k][i] == records[i] && before[..k][i] == before[i];
  }

  /** The last record is put back: the variable has its old text again, and the text it gives up is freed
      unless it is marked. */
  lemma RestoreKeeps(vars: map<string, Var>, texts: map<nat, string>, owner: map<nat, string>,
                     records: seq<Record>, before: seq<Option<string>>)
    requires Sound(vars, texts, owner, records, before) && records != []
    requires var r := records[|records| - 1]; r.Local? && !IsFresh(r)
    ensures var r := records[|records| - 1]; var v := vars[r.name].(flags := r.flags, text := r.text.value);
            var texts' := Freed(texts, vars[r.name]);
            && Sound(vars[r.name := v], texts', owner, records[..|records| - 1], before[..|records| - 1])
            && Value(vars[r.name := v], texts', r.name) == before[|records| - 1]
            && OnlyChanged(vars, texts, vars[r.name := v], texts', r.name)
  {
    var last := |records| - 1;
    var r := records[last];
    var v := vars[r.name].(flags := r.flags, text := r.text.value);
    var texts' := Freed(texts, vars[r.name]);
    assert RecordRight(vars, texts, owner, r) && before[last] == SavedValue(texts, r);
    if !vars[r.name].flags.textFixed { NotSaved(vars, texts, owner, records, before, r.name); }
    forall k {:trigger records[k]} | 0 <= k < last
      ensures RecordRight(vars[r.name := v], texts', owner, records[k]) && before[k] == SavedValue(texts', records[k])
    {
      assert RecordRight(vars, texts, owner, records[k]) && PairRight(records[k], r);
    }
    assert forall i :: 0 <= i < last ==> records[..last][i] == records[i] && before[..last][i] == before[i];
  }
}
