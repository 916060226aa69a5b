/** Searching PATH for a command, from left to right and without any cache. */
module PathSearch {
  import opened Bytes

  /** A PATH entry: a directory, and an option if there is a percent sign. */
  datatype Comp = Comp(dir: string, option: Option<string>)

  function ColonAt(s: string, i: nat): (r: nat)
    requires i <= |s|
    ensures i <= r <= |s| && (r < |s| ==> s[r] == ':') && forall k :: i <= k < r ==> s[k] != ':'
    decreases |s| - i
  {
    if i == |s| || s[i] == ':' then i else ColonAt(s, i + 1)
  }

  function PercentAt(s: string, i: nat): (r: nat)
    requires i <= |s|
    ensures i <= r <= |s| && (r < |s| ==> s[r] == '%') && forall k :: i <= k < r ==> s[k] != '%'
    decreases |s| - i
  {
    if i == |s| || s[i] == '%' then i else PercentAt(s, i + 1)
  }

  function ParseComp(t: string): (c: Comp) {
    var p := PercentAt(t, 0);
    if p < |t| then Comp(t[..p], Some(t[p + 1..])) else Comp(t, None)
  }

  /** The entries of a PATH from position i on. */
  function Comps(s: string, i: nat): (r: seq<Comp>)
    requires i <= |s|
    ensures |r| > 0
    decreases |s| - i
  {
    var c := ColonAt(s, i);
    [ParseComp(s[i..c])] + if c < |s| then Comps(s, c + 1) else []
  }

  /** The files there are, the builtins, and what a name without a slash may be. */
  datatype Env = Env(absolute: string -> bool, relative: (string, string) -> bool, builtin: string -> bool)

  function Full(dir: string, name: string): (r: string) {
    if dir == "" then name else dir + "/" + name
  }

  predicate IsAbsolute(full: string) {
    |full| > 0 && full[0] == '/'
  }

  /** A regular file has this name, seen from the working directory. */
  predicate Regular(env: Env, cwd: string, full: string) {
    if IsAbsolute(full) then env.absolute(full) else env.relative(cwd, full)
  }

  predicate Prefix(p: string, s: string) {
    |p| <= |s| && s[..|p|] == p
  }

  predicate IsBuiltinComp(c: Comp) {
    c.option.Some? && Prefix("builtin", c.option.value)
  }

  datatype Answer = Normal(index: int) | Builtin | Function | Special | Unknown

  /** The search from entry k on. Entries with other options are ignored. */
  function SearchFrom(env: Env, cwd: string, cs: seq<Comp>, k: nat, name: string): (r: Answer)
    requires k <= |cs|
    decreases |cs| - k
  {
    if k == |cs| then Unknown
    else if IsBuiltinComp(cs[k]) then (if env.builtin(name) then Builtin else SearchFrom(env, cwd, cs, k + 1, name))
    else if cs[k].option.Some? then SearchFrom(env, cwd, cs, k + 1, name)
    else if Regular(env, cwd, Full(cs[k].dir, name)) then Normal(k)
    else SearchFrom(env, cwd, cs, k + 1, name)
  }

  /** The number of the first %builtin entry from k on, or -1. */
  function BuiltinLoc(cs: seq<Comp>, k: nat): (r: int)
    requires k <= |cs|
    ensures r == -1 || (k <= r < |cs| && IsBuiltinComp(cs[r]))
    ensures forall j :: k <= j < (if r < 0 then |cs| else r) ==> !IsBuiltinComp(cs[j])
    decreases |cs| - k
  {
    if k == |cs| then -1 else if IsBuiltinComp(cs[k]) then k else BuiltinLoc(cs, k + 1)
  }

  /** What a name means: a builtin if PATH does not say where builtins come, else what the search finds. */
  function Fresh(env: Env, cwd: string, cs: seq<Comp>, name: string): (r: Answer) {
    if BuiltinLoc(cs, 0) < 0 && env.builtin(name) then Builtin else SearchFrom(env, cwd, cs, 0, name)
  }

  /** Entry k ends the search. */
  predicate Stops(env: Env, cwd: string, c: Comp, name: string) {
    if c.option.Some? then IsBuiltinComp(c) && env.builtin(name) else Regular(env, cwd, Full(c.dir, name))
  }

  /** Entry idx is where the search finds a file. */
  ghost predicate Hit(env: Env, cwd: string, cs: seq<Comp>, idx: int, name: string) {
    && 0 <= idx < |cs| && cs[idx].option.None? && Stops(env, cwd, cs[idx], name)
    && forall k :: 0 <= k < idx ==> !Stops(env, cwd, cs[k], name)
  }

  lemma {:induction false} SearchHits(env: Env, cwd: string, cs: seq<Comp>, k: nat, idx: int, name: string)
    requires k <= |cs| && forall j :: 0 <= j < k ==> !Stops(env, cwd, cs[j], name)
    ensures SearchFrom(env, cwd, cs, k, name) == Normal(idx) <==> Hit(env, cwd, cs, idx, name)
    decreases |cs| - k
  {
    if k < |cs| && !Stops(env, cwd, cs[k], name) { SearchHits(env, cwd, cs, k + 1, idx, name); }
  }

  /** The entry is %builtin, or %builtin with more behind it. */
  predicate SaysBuiltin(c: Comp) {
    c.option.Some? && |c.option.value| >= 7 && c.option.value[..7] == "builtin"
  }

  /** The entry is a directory that has a file of this name. */
  predicate HasFile(env: Env, cwd: string, c: Comp, name: string) {
    c.option.None? && Regular(env, cwd, Full(c.dir, name))
  }

  /** Entry k is the first that is %builtin, for the name of a builtin, or a directory with such a file. */
  ghost predicate First(env: Env, cwd: string, cs: seq<Comp>, k: nat, name: string) {
    && k < |cs| && ((SaysBuiltin(cs[k]) && env.builtin(name)) || HasFile(env, cwd, cs[k], name))
    && forall j :: 0 <= j < k ==> !(SaysBuiltin(cs[j]) && env.builtin(name)) && !HasFile(env, cwd, cs[j], name)
  }

  /** What a name means: a builtin if PATH has no %builtin entry; otherwise what the first entry says that says
      something, and nothing if none does. */
  lemma FreshExactly(env: Env, cwd: string, cs: seq<Comp>, name: string)
    ensures var r, ahead := Fresh(env, cwd, cs, name), env.builtin(name) && forall k :: 0 <= k < |cs| ==>
              !SaysBuiltin(cs[k]);
            && (ahead ==> r == Builtin)
            && (!ahead ==>
                  forall k: nat :: First(env, cwd, cs, k, name) ==>
                      r == if SaysBuiltin(cs[k]) then Builtin else Normal(k))
            && (!ahead && (forall k: nat :: !First(env, cwd, cs, k, name)) ==> r == Unknown)
  {
    if BuiltinLoc(cs, 0) >= 0 { assert SaysBuiltin(cs[BuiltinLoc(cs, 0)]); }
    forall k: nat | First(env, cwd, cs, k, name)
      ensures SearchFrom(env, cwd, cs, 0, name) == if SaysBuiltin(cs[k]) then Builtin else Normal(k)
    {
      FirstFound(env, cwd, cs, 0, k, name);
    }
    if forall k: nat :: !First(env, cwd, cs, k, name) { NoneFound(env, cwd, cs, 0, name); }
  }

  lemma {:induction false} FirstFound(env: Env, cwd: string, cs: seq<Comp>, i: nat, k: nat, name: string)
    requires First(env, cwd, cs, k, name) && i <= k
    ensures SearchFrom(env, cwd, cs, i, name) == if SaysBuiltin(cs[k]) then Builtin else Normal(k)
    decreases k - i
  {
    if i < k { FirstFound(env, cwd, cs, i + 1, k, name); }
  }

  lemma {:induction false} NoneFound(env: Env, cwd: string, cs: seq<Comp>, i: nat, name: string)
    requires i <= |cs| && forall k: nat :: !First(env, cwd, cs, k, name)
    requires forall j :: 0 <= j < i ==> !(SaysBuiltin(cs[j]) && env.builtin(name)) && !HasFile(env, cwd, cs[j], name)
    ensures SearchFrom(env, cwd, cs, i, name) == Unknown
    decreases |cs| - i
  {
    if i < |cs| {
      assert !First(env, cwd, cs, i, name);
      NoneFound(env, cwd, cs, i + 1, name);
    }
  }

  /** Entry k cannot be told without knowing the working directory. */
  predicate Relative(c: Comp, name: string) {
    c.option.None? && !IsAbsolute(Full(c.dir, name))
  }

  /** What a file found at idx says whatever the working directory: of the other entries before it,
      none ends the search, and it does if it is absolute. */
  ghost predicate Known(env: Env, cs: seq<Comp>, idx: int, name: string) {
    && 0 <= idx < |cs| && cs[idx].option.None?
    && (forall k :: 0 <= k < idx && !Relative(cs[k], name) ==> !Stops(env, "", cs[k], name))
    && (!Relative(cs[idx], name) ==> Stops(env, "", cs[idx], name))
  }

  lemma HitKnown(env: Env, cwd: string, cs: seq<Comp>, idx: int, name: string)
    requires Hit(env, cwd, cs, idx, name)
    ensures Known(env, cs, idx, name)
  {
  }

  /** Paths that agree up to idx say the same about a file found there. */
  lemma SameUpTo(env: Env, cwd: string, cs: seq<Comp>, cs': seq<Comp>, idx: int, name: string)
    requires 0 <= idx < |cs| && idx < |cs'| && forall k :: 0 <= k <= idx ==> cs[k] == cs'[k]
    ensures Hit(env, cwd, cs, idx, name) == Hit(env, cwd, cs', idx, name)
    ensures Known(env, cs, idx, name) == Known(env, cs', idx, name)
  {
  }

  // ----- Stepping through PATH -----

  lemma {:induction false} PercentIsFrom(t: string, i: nat, p: nat)
    requires i <= p <= |t| && (forall k :: i <= k < p ==> t[k] != '%') && (p < |t| ==> t[p] == '%')
    ensures PercentAt(t, i) == p
    decreases p - i
  {
    if i < p { PercentIsFrom(t, i + 1, p); }
  }

  lemma PercentIs(t: string, p: nat)
    requires p <= |t| && (forall k :: 0 <= k < p ==> t[k] != '%') && (p < |t| ==> t[p] == '%')
    ensures PercentAt(t, 0) == p
  {
    PercentIsFrom(t, 0, p);
  }

  /** The entry between st and c, whose text up to p has no percent sign. */
  lemma EntryParts(s: string, st: nat, p: nat, c: nat)
    requires st <= p <= c <= |s| && (forall k :: st <= k < p ==> s[k] != '%') && (p < c ==> s[p] == '%')
    ensures ParseComp(s[st..c]) == Comp(s[st..p], if p < c then Some(s[p + 1..c]) else None)
  {
    var text := s[st..c];
    PercentIs(text, p - st);
    assert text[..p - st] == s[st..p];
    if p < c { assert text[p - st + 1..] == s[p + 1..c]; }
  }

  /** What one step says about the entry that starts at st: the name to try, where the text of its
      option starts, and where the rest of PATH starts. */
  ghost predicate Stepped(path: string, st: nat, name: string, full: string, opt: Option<nat>, next: Option<nat>) {
    && st <= |path|
    && var c := ColonAt(path, st); var comp := ParseComp(path[st..c]);
       && full == Full(comp.dir, name) && next == (if c < |path| then Some(c + 1) else None)
       && (opt.Some? <==> comp.option.Some?)
          && (opt.Some? ==> opt.value <= c && path[opt.value..c] == comp.option.value)
  }

  lemma SteppedOver(path: string, st: nat, p: nat, c: nat, name: string)
    requires st <= p <= c <= |path| && c == ColonAt(path, st)
    requires (forall k :: st <= k < p ==> path[k] != '%') && (p < c ==> path[p] == '%')
    ensures Stepped(path, st, name, Full(path[st..p], name), if p < c then Some(p + 1) else None,
                    if c < |path| then Some(c + 1) else None)
  {
    EntryParts(path, st, p, c);
  }

  lemma ColonIs(s: string, i: nat, c: nat)
    requires i <= c <= |s| && (c < |s| ==> s[c] == ':') && forall k :: i <= k < c ==> s[k] != ':'
    ensures ColonAt(s, i) == c
  {
  }

  /** The name to try, letter by letter: what stands in PATH from st on, up to the next colon or percent sign, a slash
      and the name; but only the name where nothing stands there. */
  ghost predicate Spelt(path: string, st: nat, n: nat, name: string, full: string) {
    && st + n <= |path| && (st + n < |path| ==> path[st + n] == ':' || path[st + n] == '%')
    && (forall k :: st <= k < st + n ==> path[k] != ':' && path[k] != '%')
    && (n == 0 ==> full == name)
    && (n > 0 ==>
          && |full| == n + 1 + |name| && full[n] == '/'
          && (forall k :: 0 <= k < n ==> full[k] == path[st + k])
          && (forall k :: 0 <= k < |name| ==> full[n + 1 + k] == name[k]))
  }

  lemma FullSpelt(path: string, st: nat, p: nat, name: string)
    requires st <= p <= |path| && (p < |path| ==> path[p] == ':' || path[p] == '%')
    requires forall k :: st <= k < p ==> path[k] != ':' && path[k] != '%'
    ensures Spelt(path, st, p - st, name, Full(path[st..p], name))
  {
  }

  /** The next candidate of PATH. */
  method Padvance(path: string, start: nat, name: string) returns (full: string, opt: Option<nat>, next: Option<nat>)
    requires start <= |path|
    ensures Stepped(path, start, name, full, opt, next)
    ensures exists n: nat :: Spelt(path, start, n, name, full)
  {
    hide Spelt, Stepped, Full;
    var p := start;
    while p < |path| && path[p] != ':' && path[p] != '%'
      invariant start <= p <= |path|
      invariant forall k :: start <= k < p ==> path[k] != ':' && path[k] != '%'
    {
      p := p + 1;
    }
    var q := p;
    opt := None;
    if p < |path| && path[p] == '%' {
      p := p + 1;
      opt := Some(p);
      while p < |path| && path[p] != ':'
        invariant q < p <= |path|
        invariant forall k :: start <= k < p ==> path[k] != ':'
      {
        p := p + 1;
      }
    }
    ColonIs(path, start, p);
    SteppedOver(path, start, q, p, name);
    full := Candidate(path, start, q, name);
    FullSpelt(path, start, q, name);
    next := if p < |path| && path[p] == ':' then Some(p + 1) else None;
  }

  method Candidate(path: string, start: nat, p: nat, name: string) returns (full: string)
    requires start <= p <= |path|
    ensures full == Full(path[start..p], name)
  {
    if p != start {
      full := path[start..p] + "/" + name;
    } else {
      full := name;
    }
  }

  // ----- Comparing two values of PATH -----

  const NO_CHANGE := 9999

  /** The first n entries of the old PATH are also the first entries of the new one. */
  ghost predicate Common(olds: seq<Comp>, news: seq<Comp>, n: int) {
    forall k :: 0 <= k < n && k < |olds| ==> k < |news| && olds[k] == news[k]
  }

  /** Entry n is in only one of the two, or is not the same in both. */
  ghost predicate Differs(olds: seq<Comp>, news: seq<Comp>, n: int) {
    n >= 0 && !(n < |olds| && n < |news| && olds[n] == news[n])
  }

  predicate PrefixAt(p: string, s: string, i: nat) {
    i + |p| <= |s| && s[i..i + |p|] == p
  }

  /** A percent sign at m, with "builtin" behind it. */
  predicate NamedAt(s: string, m: nat) {
    m < |s| && s[m] == '%' && PrefixAt("builtin", s, m + 1)
  }

  /** An entry in which any percent sign has "builtin" behind it, not only the first. */
  predicate NamesBuiltin(c: Comp) {
    exists m :: 0 <= m < |EntryOf(c)| && NamedAt(EntryOf(c), m)
  }

  /** The number of the first such entry from k on, or -1. */
  function NamedLoc(cs: seq<Comp>, k: nat): (r: int)
    requires k <= |cs|
    ensures r == -1 || (k <= r < |cs| && NamesBuiltin(cs[r]))
    ensures forall j :: k <= j < (if r < 0 then |cs| else r) ==> !NamesBuiltin(cs[j])
    decreases |cs| - k
  {
    if k == |cs| then -1 else if NamesBuiltin(cs[k]) then k else NamedLoc(cs, k + 1)
  }

  lemma BuiltinNames(c: Comp)
    requires IsBuiltinComp(c)
    ensures NamesBuiltin(c)
  {
    var t := EntryOf(c);
    assert t[|c.dir|] == '%' && t[|c.dir| + 1..] == c.option.value;
    assert t[|c.dir| + 1..|c.dir| + 8] == c.option.value[..7];
    assert NamedAt(t, |c.dir|);
  }

  /** The first entry that names builtins is the first %builtin entry if and only if it is one, or there is none. */
  lemma NamedExactly(cs: seq<Comp>)
    ensures var l := NamedLoc(cs, 0); l == BuiltinLoc(cs, 0) <==> l < 0 || IsBuiltinComp(cs[l])
  {
    hide NamesBuiltin, IsBuiltinComp;
    var l, b := NamedLoc(cs, 0), BuiltinLoc(cs, 0);
    if b >= 0 { BuiltinNames(cs[b]); }
    if l >= 0 && IsBuiltinComp(cs[l]) { assert b == l; }
  }

  /** An entry that is taken for %builtin but is none. */
  lemma NamedNotBuiltin(dir: string)
    ensures var c := Comp(dir, Some("func%builtin")); NamesBuiltin(c) && !IsBuiltinComp(c)
  {
    var o := "func%builtin";
    var t := EntryOf(Comp(dir, Some(o)));
    assert t[|dir| + 1..] == o && o[4] == '%' && o[5..] == "builtin";
    assert t[|dir| + 5] == '%' && t[|dir| + 6..|dir| + 13] == "builtin";
    assert NamedAt(t, |dir| + 5);
    assert o[0] != 'b';
  }

  /** Position j of a PATH lies in its entry idx, which starts at st. */
  ghost predicate InEntry(s: string, j: nat, idx: nat, st: nat) {
    st <= j <= |s| && ColonAt(s, st) >= j && idx < |Comps(s, 0)| && Comps(s, 0)[idx..] == Comps(s, st)
  }

  lemma CompsHead(s: string, i: nat)
    requires i <= |s|
    ensures var c := ColonAt(s, i);
            && Comps(s, i)[0] == ParseComp(s[i..c])
            && Comps(s, i)[1..] == if c < |s| then Comps(s, c + 1) else []
  {
  }

  lemma DropOne<T>(cs: seq<T>, idx: nat, rest: seq<T>)
    requires idx < |cs| && cs[idx..] == rest
    ensures |rest| == |cs| - idx && cs[idx] == rest[0] && cs[idx + 1..] == rest[1..]
  {
    assert cs[idx..][0] == cs[idx] && cs[idx..][1..] == cs[idx + 1..];
  }

  lemma {:induction false} ColonFrom(s: string, i: nat, j: nat)
    requires i <= j <= |s| && ColonAt(s, i) >= j
    ensures ColonAt(s, j) == ColonAt(s, i)
    decreases j - i
  {
    if i < j { ColonFrom(s, i + 1, j); }
  }

  lemma EntryText(s: string, j: nat, idx: nat, st: nat)
    requires InEntry(s, j, idx, st)
    ensures Comps(s, 0)[idx] == ParseComp(s[st..ColonAt(s, st)])
    ensures j < |s| && s[j] == ':' ==> ColonAt(s, st) == j && InEntry(s, j + 1, idx + 1, j + 1)
    ensures j < |s| && s[j] != ':' ==> InEntry(s, j + 1, idx, st)
    ensures j == |s| ==> ColonAt(s, st) == j && idx + 1 == |Comps(s, 0)|
  {
    CompsHead(s, st);
    DropOne(Comps(s, 0), idx, Comps(s, st));
    ColonFrom(s, st, j);
    if j < |s| && s[j] == ':' { assert |Comps(s, j + 1)| > 0; }
  }

  /** A text without colons starts the rest of PATH exactly when it starts the rest of the entry. */
  lemma PrefixInside(p: string, s: string, a: nat, c: nat)
    requires a <= c <= |s| && (c < |s| ==> s[c] == ':') && forall k :: 0 <= k < |p| ==> p[k] != ':'
    ensures PrefixAt(p, s, a) <==> Prefix(p, s[a..c])
  {
    if a + |p| <= |s| && c < a + |p| {
      assert s[a..a + |p|][c - a] == s[c];
    }
    if a + |p| <= c {
      assert s[a..c][..|p|] == s[a..a + |p|];
    }
  }

  predicate NoColon(p: string) {
    forall k :: 0 <= k < |p| ==> p[k] != ':'
  }

  lemma NamedInside(s: string, st: nat, c: nat, m: nat)
    requires st <= m < c <= |s| && (c < |s| ==> s[c] == ':')
    ensures NamedAt(s, m) <==> NamedAt(s[st..c], m - st)
  {
    hide PrefixAt, Prefix;
    var t := s[st..c];
    assert NoColon("builtin");
    PrefixInside("builtin", s, m + 1, c);
    assert t[m - st + 1..] == s[m + 1..c] && t[m - st] == s[m];
    PrefixRest("builtin", t, m - st + 1);
  }

  /** An entry names builtins if and only if it does so at one of its positions in PATH. */
  lemma EntryNames(s: string, j: nat, idx: nat, st: nat)
    requires InEntry(s, j, idx, st)
    ensures NamesBuiltin(Comps(s, 0)[idx]) <==> exists m: nat :: st <= m < ColonAt(s, st) && NamedAt(s, m)
  {
    hide NamedAt, Comps, ParseComp, EntryOf;
    EntryText(s, j, idx, st);
    var c := ColonAt(s, st);
    var t := s[st..c];
    ParseKeeps(t);
    if NamesBuiltin(ParseComp(t)) {
      var m: nat :| m < |t| && NamedAt(t, m);
      NamedInside(s, st, c, st + m);
    }
    if m: nat :| st <= m < c && NamedAt(s, m) {
      NamedInside(s, st, c, m);
      assert NamedAt(t, m - st);
    }
  }

  lemma PrefixRest(p: string, t: string, a: nat)
    requires a <= |t|
    ensures PrefixAt(p, t, a) <==> Prefix(p, t[a..])
  {
    if a + |p| <= |t| { assert t[a..][..|p|] == t[a..a + |p|]; }
  }

  lemma TakeCommon(os: seq<Comp>, ns: seq<Comp>, idx: nat)
    requires idx <= |os| && idx <= |ns| && os[..idx] == ns[..idx]
    ensures Common(os, ns, idx)
    ensures idx < |os| && idx < |ns| && os[idx] == ns[idx] ==> Common(os, ns, idx + 1) && os[..idx + 1] == ns[..idx + 1]
  {
    forall k | 0 <= k < idx
      ensures os[k] == ns[k]
    {
      assert os[..idx][k] == ns[..idx][k];
    }
  }

  lemma SameText(o: string, n: string, st: nat, j: nat)
    requires st <= j <= |o| && j <= |n| && o[..j] == n[..j]
    ensures o[st..j] == n[st..j]
  {
    assert o[..j][st..] == o[st..j] && n[..j][st..] == n[st..j];
  }

  predicate EndsAt(s: string, j: nat) {
    j == |s| || (j < |s| && s[j] == ':')
  }

  /** Where both values end entry idx at j, it is common to both. */
  lemma ChangeAt(o: string, n: string, j: nat, idx: nat, st: nat)
    requires InEntry(o, j, idx, st) && InEntry(n, j, idx, st) && o[..j] == n[..j]
    requires Comps(o, 0)[..idx] == Comps(n, 0)[..idx]
    ensures Common(Comps(o, 0), Comps(n, 0), idx)
    ensures EndsAt(o, j) && EndsAt(n, j) ==>
              Common(Comps(o, 0), Comps(n, 0), idx + 1) && Comps(o, 0)[..idx + 1] == Comps(n, 0)[..idx + 1]
  {
    EntryText(o, j, idx, st);
    EntryText(n, j, idx, st);
    SameText(o, n, st, j);
    TakeCommon(Comps(o, 0), Comps(n, 0), idx);
  }

  /** Both values of PATH are the same up to position j, in entry idx. */
  ghost predicate Alike(o: string, n: string, j: nat, idx: nat, st: nat) {
    InEntry(o, j, idx, st) && InEntry(n, j, idx, st) && o[..j] == n[..j] && Comps(o, 0)[..idx] == Comps(n, 0)[..idx]
  }

  lemma AlikeNext(o: string, n: string, j: nat, idx: nat, st: nat)
    requires Alike(o, n, j, idx, st) && j < |o| && j < |n| && o[j] == n[j]
    ensures if n[j] == ':' then Alike(o, n, j + 1, idx + 1, j + 1) else Alike(o, n, j + 1, idx, st)
  {
    TakeNext(o, n, j);
    EntryNext(o, j, idx, st);
    EntryNext(n, j, idx, st);
    if n[j] == ':' { ChangeAt(o, n, j, idx, st); }
  }

  lemma TakeNext(o: string, n: string, j: nat)
    requires j < |o| && j < |n| && o[..j] == n[..j] && o[j] == n[j]
    ensures o[..j + 1] == n[..j + 1]
  {
    assert o[..j + 1] == o[..j] + [o[j]] && n[..j + 1] == n[..j] + [n[j]];
  }

  lemma EntryNext(s: string, j: nat, idx: nat, st: nat)
    requires InEntry(s, j, idx, st) && j < |s|
    ensures if s[j] == ':' then InEntry(s, j + 1, idx + 1, j + 1) else InEntry(s, j + 1, idx, st)
  {
    EntryText(s, j, idx, st);
  }

  /** bltin is the first entry that names builtins, as far as position j tells. */
  ghost predicate BuiltinSoFar(s: string, j: nat, idx: nat, st: nat, bltin: int) {
    && InEntry(s, j, idx, st)
    && if bltin >= 0 then bltin == NamedLoc(Comps(s, 0), 0)
       else
         && bltin == -1 && (forall k :: 0 <= k < idx ==> !NamesBuiltin(Comps(s, 0)[k]))
         && (forall m: nat :: st <= m < j ==> !NamedAt(s, m))
  }

  /** What the character at j says about %builtin. */
  method NoteBuiltin(s: string, j: nat, idx: nat, bltin: int, ghost st: nat) returns (r: int)
    requires BuiltinSoFar(s, j, idx, st, bltin) && j < |s|
    ensures if s[j] == ':' then BuiltinSoFar(s, j + 1, idx + 1, j + 1, r) else BuiltinSoFar(s, j + 1, idx, st, r)
  {
    hide NamesBuiltin, Comps, PrefixAt;
    EntryText(s, j, idx, st);
    EntryNames(s, j, idx, st);
    r := bltin;
    if s[j] == '%' && bltin < 0 && PrefixAt("builtin", s, j + 1) {
      assert NamedAt(s, j);
      r := idx;
      NamedFound(Comps(s, 0), idx);
    }
  }

  lemma NamedFound(cs: seq<Comp>, idx: nat)
    requires idx < |cs| && NamesBuiltin(cs[idx]) && forall k :: 0 <= k < idx ==> !NamesBuiltin(cs[k])
    ensures NamedLoc(cs, 0) == idx
  {
  }

  function EntryOf(c: Comp): (t: string) {
    match c.option case None => c.dir case Some(o) => c.dir + "%" + o
  }

  lemma ParseKeeps(t: string)
    ensures EntryOf(ParseComp(t)) == t
  {
    var p := PercentAt(t, 0);
    if p < |t| { assert t == t[..p] + "%" + t[p + 1..]; }
  }

  /** Values that are alike up to j and then differ, differ in the entry ChangedEntry. */
  lemma ChangeDiffers(o: string, n: string, j: nat, idx: nat, st: nat)
    requires Alike(o, n, j, idx, st) && ((j == |o|) != (j == |n|) || (j < |n| && o[j] != n[j]))
    ensures Differs(Comps(o, 0), Comps(n, 0), ChangedEntry(o, n, j, idx)) && o != n
  {
    EntryText(o, j, idx, st);
    EntryText(n, j, idx, st);
    if ChangedEntry(o, n, j, idx) == idx {
      TextsDiffer(o, n, j, st);
      ParseDiffers(o[st..ColonAt(o, st)], n[st..ColonAt(n, st)]);
    }
  }

  lemma ParseDiffers(t: string, t': string)
    requires t != t'
    ensures ParseComp(t) != ParseComp(t')
  {
    ParseKeeps(t);
    ParseKeeps(t');
  }

  lemma TextsDiffer(o: string, n: string, j: nat, st: nat)
    requires st <= j <= |o| && j <= |n| && ColonAt(o, st) >= j && ColonAt(n, st) >= j
    requires (j == |o|) != (j == |n|) || (j < |n| && o[j] != n[j])
    requires !(j == |o| && n[j] == ':') && !(j == |n| && o[j] == ':')
    ensures o[st..ColonAt(o, st)] != n[st..ColonAt(n, st)]
  {
    var c, d := ColonAt(o, st), ColonAt(n, st);
    if c == d {
      assert o[st..c][j - st] == o[j] && n[st..d][j - st] == n[j];
    }
  }

  function ChangedEntry(o: string, n: string, j: nat, idx: nat): (r: nat) {
    if (j == |o| && j < |n| && n[j] == ':') || (j == |n| && j < |o| && o[j] == ':') then idx + 1 else idx
  }

  /** Whether the values differ at j, and from which entry on they may then differ. */
  method NoteChange(o: string, n: string, j: nat, idx: nat, ghost st: nat) returns (changed: bool, at: nat)
    requires Alike(o, n, j, idx, st)
    ensures changed ==> Common(Comps(o, 0), Comps(n, 0), at)
    ensures changed ==> Differs(Comps(o, 0), Comps(n, 0), at) && o != n
    ensures !changed ==> (j == |o| <==> j == |n|) && (j < |n| ==> o[j] == n[j])
  {
    ChangeAt(o, n, j, idx, st);
    changed, at := (j == |o|) != (j == |n|) || (j < |n| && o[j] != n[j]), idx;
    if (j == |o| && j < |n| && n[j] == ':') || (j == |n| && j < |o| && o[j] == ':') { at := at + 1; }
    if changed { ChangeDiffers(o, n, j, idx, st); }
  }

  /** What the comparison knows at position j of the new value: no difference yet, or where the first
      one was. */
  ghost predicate Compared(o: string, n: string, j: nat, idx: nat, st: nat, same: bool, firstchange: nat) {
    if same then Alike(o, n, j, idx, st) && firstchange == NO_CHANGE
    else Common(Comps(o, 0), Comps(n, 0), firstchange) && Differs(Comps(o, 0), Comps(n, 0), firstchange) && o != n
  }

  /** One comparison of characters, at the end of the new value too. */
  method CompareAt(o: string, n: string, j: nat, idx: nat, same: bool, firstchange: nat, ghost st: nat)
    returns (same': bool, firstchange': nat)
    requires Compared(o, n, j, idx, st, same, firstchange) && j <= |n|
    ensures Compared(o, n, j, idx, st, same', firstchange')
    ensures same' ==> Alike(o, n, j, idx, st)
    ensures same' ==> j <= |o| && (j == |o| <==> j == |n|) && (j < |n| ==> o[j] == n[j])
  {
    same', firstchange' := same, firstchange;
    if same {
      var changed, at := NoteChange(o, n, j, idx, st);
      if changed { same', firstchange' := false, at; }
    }
  }

  lemma ComparedNext(o: string, n: string, j: nat, idx: nat, st: nat, same: bool, firstchange: nat)
    requires Compared(o, n, j, idx, st, same, firstchange) && j < |n|
    requires same ==> j < |o| && o[j] == n[j]
    ensures (if n[j] == ':' then Compared(o, n, j + 1, idx + 1, j + 1, same, firstchange)
             else Compared(o, n, j + 1, idx, st, same, firstchange))
  {
    if same { AlikeNext(o, n, j, idx, st); }
  }

  lemma ComparedAll(o: string, n: string, j: nat, idx: nat, st: nat, same: bool, firstchange: nat)
    requires Compared(o, n, j, idx, st, same, firstchange) && j == |n| && (same ==> j == |o|)
    ensures Common(Comps(o, 0), Comps(n, 0), firstchange)
    ensures if o == n then firstchange == NO_CHANGE else Differs(Comps(o, 0), Comps(n, 0), firstchange)
  {
    if same { SameOver(o, n); }
  }

  /** The first entry that may differ between two values of PATH, and the first of the new that names builtins. */
  method ComparePaths(o: string, n: string) returns (firstchange: nat, bltin: int)
    ensures Common(Comps(o, 0), Comps(n, 0), firstchange)
    ensures if o == n then firstchange == NO_CHANGE else Differs(Comps(o, 0), Comps(n, 0), firstchange)
    ensures bltin == NamedLoc(Comps(n, 0), 0)
  {
    hide Comps;
    firstchange, bltin := NO_CHANGE, -1;
    var idx: nat, j: nat, same := 0, 0, true;
    ghost var st: nat := 0;
    ComparedStart(o, n);
    while true
      invariant j <= |n|
      invariant BuiltinSoFar(n, j, idx, st, bltin)
      invariant Compared(o, n, j, idx, st, same, firstchange)
      decreases |n| - j
    {
      same, firstchange := CompareAt(o, n, j, idx, same, firstchange, st);
      if j == |n| {
        LastEntry(n, j, idx, st, bltin);
        ComparedAll(o, n, j, idx, st, same, firstchange);
        return;
      }
      bltin := NoteBuiltin(n, j, idx, bltin, st);
      ComparedNext(o, n, j, idx, st, same, firstchange);
      if n[j] == ':' {
        idx := idx + 1;
        st := j + 1;
      }
      j := j + 1;
    }
  }

  lemma ComparedStart(o: string, n: string)
    ensures BuiltinSoFar(n, 0, 0, 0, -1)
    ensures Compared(o, n, 0, 0, 0, true, NO_CHANGE)
  {
    assert Comps(n, 0)[0..] == Comps(n, 0) && Comps(o, 0)[0..] == Comps(o, 0);
  }

  lemma LastEntry(s: string, j: nat, idx: nat, st: nat, bltin: int)
    requires BuiltinSoFar(s, j, idx, st, bltin) && j == |s|
    ensures bltin == NamedLoc(Comps(s, 0), 0)
  {
    hide NamesBuiltin, Comps;
    EntryText(s, j, idx, st);
    EntryNames(s, j, idx, st);
  }

  lemma SameOver(o: string, n: string)
    requires |o| == |n| && o[..|o|] == n[..|n|]
    ensures o == n
  {
    assert o[..|o|] == o && n[..|n|] == n;
  }
}
