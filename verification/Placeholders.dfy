/** The `{{…}}` vocabulary of an entrant's environment: scanning it, validating it, and
    substituting it token by token. */
module Placeholders {
  import Decimal
  import opened Wire

  // ----- string searches

  /** str::find: the first index at which `pat` starts. */
  function Find(s: string, pat: string): (r: Option<nat>)
    requires pat != []
    ensures r.Some? ==> r.value + |pat| <= |s| && pat <= s[r.value..]
  {
    if pat <= s then Some(0)
    else if s == [] then None
    else
      var r := Find(s[1..], pat);
      if r.Some? then Some(r.value + 1) else None
  }

  /** Before the index found, and anywhere when none is found, the pattern does not start. */
  lemma {:induction false} FindIsFirst(s: string, pat: string, i: nat)
    requires pat != [] && i <= |s| && (Find(s, pat).Some? ==> i < Find(s, pat).value)
    ensures !(pat <= s[i..])
  {
    if i > 0 {
      FindIsFirst(s[1..], pat, i - 1);
      assert s[i..] == s[1..][i - 1..];
    }
  }

  /** str::replace: every occurrence, from the left, without overlaps. */
  function Replace(s: string, pat: string, with: string): string
    requires pat != []
    decreases |s|
  {
    if pat <= s then with + Replace(s[|pat|..], pat, with)
    else if s == [] then []
    else [s[0]] + Replace(s[1..], pat, with)
  }

  // ----- the scanner and the vocabulary

  /** A token as written, and the text between its braces when it closes. */
  datatype Token = Token(text: string, inner: Option<string>)

  /** A string up to and around its first `{{`. */
  datatype Scan = Plain | Open(after: string) | Closed(before: string, inner: string, rest: string)

  function ScanOne(raw: string): (r: Scan)
    ensures r.Open? ==> r.after != []
    ensures r.Closed? ==> raw == r.before + ("{{" + r.inner + "}}") + r.rest
  {
    match Find(raw, "{{")
    case None => Plain
    case Some(start) =>
      var after := raw[start..];
      match Find(after, "}}")
      case None => Open(after)
      case Some(end) =>
        SplitsAround(raw, start, end);
        Closed(raw[..start], after[2..end], after[end + 2..])
  }

  lemma SplitsAround(raw: string, start: nat, end: nat)
    requires start <= |raw| && "{{" <= raw[start..] && end + 2 <= |raw[start..]| && "}}" <= raw[start..][end..]
    ensures end >= 2
    ensures var after := raw[start..];
      && after[..end + 2] == "{{" + after[2..end] + "}}"
      && raw == raw[..start] + ("{{" + after[2..end] + "}}") + after[end + 2..]
  {
    var after := raw[start..];
    assert after[0] == '{' && after[1] == '{';
    assert after[end..][0] == after[end] == '}' && after[end..][1] == after[end + 1] == '}';
    assert after == "{{" + after[2..end] + "}}" + after[end + 2..];
    assert raw == raw[..start] + after;
  }

  function Tokens(raw: string): seq<Token>
    decreases |raw|
  {
    match ScanOne(raw)
    case Plain => []
    case Open(after) => [Token(after, None)]
    case Closed(_, inner, rest) => [Token("{{" + inner + "}}", Some(inner))] + Tokens(rest)
  }

  lemma ScanEnds(rest: string)
    ensures Find(rest, "{{") == None ==> Tokens(rest) == []
    ensures Find(rest, "{{").Some? && Find(rest[Find(rest, "{{").value..], "}}") == None ==>
              Tokens(rest) == [Token(rest[Find(rest, "{{").value..], None)]
  {
    hide Find;
  }

  lemma ScanFound(rest: string, start: nat, end: nat)
    requires start <= |rest| && end <= |rest| - start && Find(rest, "{{") == Some(start)
    requires Find(rest[start..], "}}") == Some(end)
    ensures 2 <= end && end + 2 <= |rest| - start
    ensures var after := rest[start..];
      Tokens(rest) == [Token(after[..end + 2], Some(after[2..end]))] + Tokens(after[end + 2..])
  {
    hide Find, Tokens;
    var after := rest[start..];
    SplitsAround(rest, start, end);
    assert ScanOne(rest) == Closed(rest[..start], after[2..end], after[end + 2..]);
    TokensOfClosed(rest);
  }

  lemma TokensOfClosed(raw: string)
    requires ScanOne(raw).Closed?
    ensures var inner := ScanOne(raw).inner;
      Tokens(raw) == [Token("{{" + inner + "}}", Some(inner))] + Tokens(ScanOne(raw).rest)
  {
    hide ScanOne;
  }

  method PlaceholderTokens(raw: string) returns (out: seq<Token>)
    ensures out == Tokens(raw)
  {
    hide Find, Tokens, ScanOne;
    out := [];
    var rest := raw;
    while true
      invariant out + Tokens(rest) == Tokens(raw)
      decreases |rest|
    {
      var start := Find(rest, "{{");
      if start == None {
        ScanEnds(rest);
        return;
      }
      var after := rest[start.value..];
      var end := Find(after, "}}");
      if end == None {
        ScanEnds(rest);
        out := out + [Token(after, None)];
        return;
      }
      ScanFound(rest, start.value, end.value);
      out := out + [Token(after[..end.value + 2], Some(after[2..end.value]))];
      rest := after[end.value + 2..];
    }
  }

  datatype Placeholder =
    | BrokerInternal | RegistryInternal | ClickhouseInternal | ClickhousePassword
    | Topic | GroupId | OffsetReset
    | Knob(name: string) | Container(name: string)

  function Parse(inner: string): Option<Placeholder> {
    if inner == "broker_internal" then Some(BrokerInternal)
    else if inner == "registry_internal" then Some(RegistryInternal)
    else if inner == "clickhouse_internal" then Some(ClickhouseInternal)
    else if inner == "clickhouse_password" then Some(ClickhousePassword)
    else if inner == "topic" then Some(Topic)
    else if inner == "group_id" then Some(GroupId)
    else if inner == "offset_reset" then Some(OffsetReset)
    else if "knob:" <= inner then Some(Knob(inner[5..]))
    else if "container:" <= inner then Some(Container(inner[10..]))
    else None
  }

  // ----- the descriptor and its validation

  datatype KnobValue = Integer(n: int) | Text(s: string) | Other

  datatype Variant = Variant(id: string, knobs: map<string, KnobValue>, env: seq<(string, string)>)

  datatype Entrant = Entrant(env: seq<(string, string)>, variants: seq<Variant>, containers: seq<string>)

  datatype EnvError = Unclosed(key: string) | Unknown(key: string, inner: string)
    | NoKnob(key: string, variant: string, knob: string) | NoContainer(key: string, container: string)

  function KnobErrors(key: string, k: string, variants: seq<Variant>): seq<EnvError> {
    if variants == [] then []
    else
      (if k in variants[0].knobs then [] else [NoKnob(key, variants[0].id, k)]) + KnobErrors(key, k, variants[1..])
  }

  /** What is wrong with one token, for the variants it is substituted for. */
  function TokenErrors(e: Entrant, key: string, t: Token, variants: seq<Variant>): seq<EnvError> {
    if t.inner == None then [Unclosed(key)]
    else
      match Parse(t.inner.value)
      case None => [Unknown(key, t.inner.value)]
      case Some(Knob(k)) => KnobErrors(key, k, variants)
      case Some(Container(c)) => if c in e.containers then [] else [NoContainer(key, c)]
      case Some(_) => []
  }

  function TokensErrors(e: Entrant, key: string, ts: seq<Token>, variants: seq<Variant>): seq<EnvError> {
    if ts == [] then [] else TokenErrors(e, key, ts[0], variants) + TokensErrors(e, key, ts[1..], variants)
  }

  function EnvErrors(e: Entrant, env: seq<(string, string)>, variants: seq<Variant>): seq<EnvError> {
    if env == [] then []
    else TokensErrors(e, env[0].0, Tokens(env[0].1), variants) + EnvErrors(e, env[1..], variants)
  }

  function VariantErrors(e: Entrant, variants: seq<Variant>): seq<EnvError> {
    if variants == [] then [] else EnvErrors(e, variants[0].env, [variants[0]]) + VariantErrors(e, variants[1..])
  }

  method CheckKnob(key: string, knob: string, variants: seq<Variant>, errs0: seq<EnvError>)
    returns (errs: seq<EnvError>)
    ensures errs == errs0 + KnobErrors(key, knob, variants)
  {
    errs := errs0;
    for m := 0 to |variants|
      invariant errs + KnobErrors(key, knob, variants[m..]) == errs0 + KnobErrors(key, knob, variants)
    {
      assert variants[m..][1..] == variants[m + 1..];
      if knob !in variants[m].knobs { errs := errs + [NoKnob(key, variants[m].id, knob)]; }
    }
  }

  method CheckToken(e: Entrant, key: string, t: Token, variants: seq<Variant>, errs0: seq<EnvError>)
    returns (errs: seq<EnvError>)
    ensures errs == errs0 + TokenErrors(e, key, t, variants)
  {
    errs := errs0;
    if t.inner == None {
      errs := errs + [Unclosed(key)];
    } else {
      match Parse(t.inner.value) {
        case None => errs := errs + [Unknown(key, t.inner.value)];
        case Some(Knob(k)) => errs := CheckKnob(key, k, variants, errs);
        case Some(Container(c)) => if c !in e.containers { errs := errs + [NoContainer(key, c)]; }
        case Some(_) =>
      }
    }
  }

  method CheckValue(e: Entrant, key: string, raw: string, variants: seq<Variant>, errs0: seq<EnvError>)
    returns (errs: seq<EnvError>)
    ensures errs == errs0 + TokensErrors(e, key, Tokens(raw), variants)
  {
    hide TokenErrors, Tokens;
    var ts := PlaceholderTokens(raw);
    errs := errs0;
    for k := 0 to |ts|
      invariant errs + TokensErrors(e, key, ts[k..], variants) == errs0 + TokensErrors(e, key, ts, variants)
    {
      assert ts[k..][1..] == ts[k + 1..];
      errs := CheckToken(e, key, ts[k], variants, errs);
    }
  }

  method CheckEnv(e: Entrant, env: seq<(string, string)>, variants: seq<Variant>, errs0: seq<EnvError>)
    returns (errs: seq<EnvError>)
    ensures errs == errs0 + EnvErrors(e, env, variants)
  {
    hide TokensErrors, Tokens;
    errs := errs0;
    for i := 0 to |env|
      invariant errs + EnvErrors(e, env[i..], variants) == errs0 + EnvErrors(e, env, variants)
    {
      assert env[i..][1..] == env[i + 1..];
      errs := CheckValue(e, env[i].0, env[i].1, variants, errs);
    }
  }

  /** The entrant-wide environment binds to every variant, a variant's own to that one. */
  method ValidateEnv(e: Entrant) returns (errs: seq<EnvError>)
    ensures errs == EnvErrors(e, e.env, e.variants) + VariantErrors(e, e.variants)
  {
    hide EnvErrors;
    errs := CheckEnv(e, e.env, e.variants, []);
    ghost var first := EnvErrors(e, e.env, e.variants);
    assert errs == [] + first == first;
    for i := 0 to |e.variants|
      invariant errs + VariantErrors(e, e.variants[i..]) == first + VariantErrors(e, e.variants)
    {
      assert e.variants[i..][1..] == e.variants[i + 1..];
      errs := CheckEnv(e, e.variants[i].env, [e.variants[i]], errs);
    }
  }

  // ----- the substituter

  /** What run time resolves the vocabulary to. */
  datatype Values = Values(broker: string, registry: string, clickhouse: string, password: string,
                           topic: string, groupId: string, offsetReset: string,
                           knobs: map<string, KnobValue>, containers: map<string, string>)

  function KnobText(v: KnobValue): string {
    match v
    case Integer(n) => (if n < 0 then "-" else "") + Decimal.Numeral(if n < 0 then -n else n)
    case Text(s) => s
    case Other => ""
  }

  function Resolve(inner: string, vals: Values): Option<string> {
    match Parse(inner)
    case None => None
    case Some(BrokerInternal) => Some(vals.broker)
    case Some(RegistryInternal) => Some(vals.registry)
    case Some(ClickhouseInternal) => Some(vals.clickhouse)
    case Some(ClickhousePassword) => Some(vals.password)
    case Some(Topic) => Some(vals.topic)
    case Some(GroupId) => Some(vals.groupId)
    case Some(OffsetReset) => Some(vals.offsetReset)
    case Some(Knob(k)) => if k in vals.knobs then Some(KnobText(vals.knobs[k])) else None
    case Some(Container(c)) => if c in vals.containers then Some(vals.containers[c]) else None
  }

  /** One token's turn: every occurrence of its text in the string so far. */
  function ReplaceToken(out: string, t: Token, vals: Values): string
    requires t.text != []
  {
    if t.inner == None then out
    else
      match Resolve(t.inner.value, vals)
      case None => out
      case Some(v) => Replace(out, t.text, v)
  }

  function InTurn(out: string, ts: seq<Token>, vals: Values): string
    requires forall t | t in ts :: t.text != []
    decreases |ts|
  {
    if ts == [] then out else InTurn(ReplaceToken(out, ts[0], vals), ts[1..], vals)
  }

  lemma {:induction false} TokensAreNotEmpty(raw: string)
    ensures forall t | t in Tokens(raw) :: t.text != []
    decreases |raw|
  {
    hide ScanOne;
    if ScanOne(raw).Closed? { TokensAreNotEmpty(ScanOne(raw).rest); }
  }

  /** None is the refusal of a string in which a placeholder remains. */
  function Substituted(raw: string, vals: Values): Option<string> {
    TokensAreNotEmpty(raw);
    var out := InTurn(raw, Tokens(raw), vals);
    if Find(out, "{{").Some? then None else Some(out)
  }

  method Substitute(raw: string, vals: Values) returns (r: Option<string>)
    ensures r == Substituted(raw, vals)
  {
    TokensAreNotEmpty(raw);
    var ts := PlaceholderTokens(raw);
    var out := raw;
    for k := 0 to |ts|
      invariant InTurn(out, ts[k..], vals) == InTurn(raw, ts, vals)
    {
      assert ts[k..][1..] == ts[k + 1..] && ts[k] in ts;
      var resolved := if ts[k].inner == None then None else Resolve(ts[k].inner.value, vals);
      if resolved.Some? {
        out := Replace(out, ts[k].text, resolved.value);
      }
    }
    r := if Find(out, "{{").Some? then None else Some(out);
  }

  // ----- one simultaneous substitution

  /** The string with every token whose inner text is in `done` replaced by its value, all
      at once; other tokens stay as written. */
  function Render(raw: string, done: set<string>, vals: Values): string
    decreases |raw|
  {
    match ScanOne(raw)
    case Closed(before, inner, rest) => before + Written(inner, done, vals) + Render(rest, done, vals)
    case _ => raw
  }

  function Written(inner: string, done: set<string>, vals: Values): string {
    if inner in done && Resolve(inner, vals).Some? then Resolve(inner, vals).value else "{{" + inner + "}}"
  }

  /** The inner texts of the closed tokens. */
  function Inners(ts: seq<Token>): set<string> {
    set t | t in ts && t.inner.Some? :: t.inner.value
  }

  /** The text of a token with inner text `b` ends in the whole text of one with inner text `a`. */
  predicate Buries(b: string, a: string) { |b| >= |a| + 2 && b[|b| - |a| - 2..] == "{{" + a }

  /** No token whose turn is still to come holds the token whose turn it is. */
  predicate TurnApart(ts: seq<Token>, done: set<string>, a: string) {
    forall t | t in ts && t.inner.Some? && t.inner.value !in done :: !Buries(t.inner.value, a)
  }

  predicate TurnsApart(ts: seq<Token>, done: set<string>)
    decreases |ts|
  {
    ts == [] || ts[0].inner.None? ||
    (TurnApart(ts, done, ts[0].inner.value) && TurnsApart(ts[1..], done + {ts[0].inner.value}))
  }

  /** No token's text holds that of another one that has its turn earlier. */
  predicate NamesApart(raw: string) { TurnsApart(Tokens(raw), {}) }

  /** Whether the substituted string begins with an opening brace. */
  predicate LeadsOpen(raw: string, vals: Values)
    decreases |raw|
  {
    match ScanOne(raw)
    case Closed(before, inner, rest) =>
      if before != [] then before[0] == '{'
      else if Resolve(inner, vals).None? then true
      else if Resolve(inner, vals).value != [] then Resolve(inner, vals).value[0] == '{'
      else LeadsOpen(rest, vals)
    case _ => raw != [] && raw[0] == '{'
  }

  predicate EndsOpen(s: string) { s != [] && s[|s| - 1] == '{' }

  /** What a caller can check before substituting: every token closes and resolves, no value holds a
      double brace, and no value ending in a brace stands before a brace. */
  predicate Guarded(raw: string, vals: Values)
    decreases |raw|
  {
    match ScanOne(raw)
    case Plain => true
    case Open(_) => false
    case Closed(_, inner, rest) =>
      && Resolve(inner, vals).Some?
      && Find(Resolve(inner, vals).value, "{{") == None
      && !(EndsOpen(Resolve(inner, vals).value) && LeadsOpen(rest, vals))
      && Guarded(rest, vals)
  }

  // ----- where a double brace can start

  predicate Single(s: string) { forall i | 0 <= i < |s| - 1 :: !(s[i] == '{' && s[i + 1] == '{') }

  /** No double brace starts in `a`, nor across its end. */
  predicate Inert(a: string) { Single(a) && !EndsOpen(a) }

  lemma {:induction false} SingleIsExact(s: string)
    ensures Find(s, "{{") == None <==> Single(s)
  {
    if s == [] {
    } else if "{{" <= s {
      assert s[0] == s[1] == '{';
    } else {
      SingleIsExact(s[1..]);
      SingleCons(s);
    }
  }

  lemma SingleCons(s: string)
    requires s != [] && !("{{" <= s)
    ensures Single(s) <==> Single(s[1..])
  {
    var t := s[1..];
    if Single(t) {
      forall i | 0 <= i < |s| - 1 ensures !(s[i] == '{' && s[i + 1] == '{') {
        if i > 0 {
          assert t[i - 1] == s[i] && t[i] == s[i + 1];
        }
      }
    }
    if Single(s) {
      forall i | 0 <= i < |t| - 1 ensures !(t[i] == '{' && t[i + 1] == '{') {
        assert t[i] == s[i + 1] && t[i + 1] == s[i + 2];
      }
    }
  }

  lemma SingleAppend(a: string, b: string)
    ensures Single(a + b) <==> Single(a) && Single(b) && !(EndsOpen(a) && b != [] && b[0] == '{')
  {
    var s := a + b;
    if Single(s) {
      forall i | 0 <= i < |a| - 1 ensures !(a[i] == '{' && a[i + 1] == '{') {
        assert s[i] == a[i] && s[i + 1] == a[i + 1];
      }
      forall i | 0 <= i < |b| - 1 ensures !(b[i] == '{' && b[i + 1] == '{') {
        assert s[|a| + i] == b[i] && s[|a| + i + 1] == b[i + 1];
      }
      if a != [] && b != [] {
        assert s[|a| - 1] == a[|a| - 1] && s[|a| - 1 + 1] == b[0];
      }
    }
  }

  lemma SingleStart(s: string)
    requires Single(s)
    ensures !("{{" <= s)
  {
    assert |s| >= 2 ==> !(s[0] == '{' && s[0 + 1] == '{');
  }

  lemma {:induction false} ReplaceAbsent(s: string, pat: string, with: string)
    requires "{{" <= pat && Single(s)
    ensures Replace(s, pat, with) == s
  {
    if s != [] {
      SingleStart(s);
      assert pat <= s ==> "{{" <= s;
      SingleCons(s);
      ReplaceAbsent(s[1..], pat, with);
    }
  }

  lemma NotAtStart(a: string, x: string, pat: string)
    requires "{{" <= pat && a != [] && Single(a) && (EndsOpen(a) ==> !(pat <= "{" + x))
    ensures !(pat <= a + x)
  {
    var s := a + x;
    assert pat[0] == pat[1] == '{' && s[0] == a[0];
    if |a| == 1 {
      assert a[0] == '{' ==> s == "{" + x;
    } else {
      SingleStart(a);
      assert s[1] == a[1];
    }
  }

  lemma ReplaceStep(s: string, pat: string, with: string)
    requires pat != [] && s != [] && !(pat <= s)
    ensures Replace(s, pat, with) == [s[0]] + Replace(s[1..], pat, with)
  {
  }

  /** The pattern passes over a text that holds no double brace, unless it starts at the text's last brace. */
  lemma {:induction false} ReplaceSkips(a: string, x: string, pat: string, with: string)
    requires "{{" <= pat && Single(a) && (EndsOpen(a) ==> !(pat <= "{" + x))
    ensures Replace(a + x, pat, with) == a + Replace(x, pat, with)
  {
    hide Single, Replace;
    if a == [] {
      assert a + x == x;
    } else {
      var s := a + x;
      assert s[1..] == a[1..] + x;
      SingleStart(a);
      SingleCons(a);
      NotAtStart(a, x, pat);
      ReplaceSkips(a[1..], x, pat, with);
      ReplaceStep(s, pat, with);
      var y := Replace(x, pat, with);
      assert [a[0]] + (a[1..] + y) == a + y;
    }
  }

  // ----- what one token can look like

  /** The inner text of a token ends where its braces first close, and does not begin with one. */
  predicate IsName(a: string) { Closes(a) && !Leads(a) }

  predicate Closes(a: string) { Find(a + "}}", "}}") == Some(|a|) }

  predicate Leads(s: string) { s != [] && s[0] == '{' }

  lemma FindStep(s: string, pat: string)
    requires pat != []
    ensures pat <= s <==> Find(s, pat) == Some(0)
    ensures !(pat <= s) && s != [] ==>
              Find(s, pat) == match Find(s[1..], pat) case Some(n) => Some(n + 1) case None => None
  {
  }

  lemma PrefixOfAppend(pat: string, p: string, x: string)
    requires |pat| <= |p|
    ensures pat <= p <==> pat <= p + x
  {
    assert (p + x)[..|pat|] == p[..|pat|];
  }

  lemma {:induction false} FindInPrefix(p: string, x: string, pat: string, n: nat)
    requires pat != [] && n + |pat| <= |p|
    ensures Find(p, pat) == Some(n) <==> Find(p + x, pat) == Some(n)
    decreases |p|
  {
    hide Find;
    var s := p + x;
    PrefixOfAppend(pat, p, x);
    FindStep(p, pat);
    FindStep(s, pat);
    if !(pat <= p) && n > 0 {
      assert s[1..] == p[1..] + x;
      FindInPrefix(p[1..], x, pat, n - 1);
    }
  }

  lemma CloseIs(p: string, x: string)
    requires Closes(p)
    ensures Find(p + "}}" + x, "}}") == Some(|p|)
  {
    hide Find;
    FindInPrefix(p + "}}", x, "}}", |p|);
  }

  /** Where a text up to its first closing braces starts like a token's text, it is that text. */
  lemma SameText(p: string, y: string, x: string)
    requires Closes(p) && Closes(y) && p + "}}" <= y + "}}" + x
    ensures p == y
  {
    hide Find, Closes;
    var s := y + "}}" + x;
    var rest := s[|p| + 2..];
    assert s == p + "}}" + rest;
    CloseIs(p, rest);
    CloseIs(y, x);
    assert s[..|p|] == p && s[..|y|] == y;
  }

  lemma ClosesCons(c: char, a: string)
    requires c != '}' && Closes(a)
    ensures Closes([c] + a)
  {
    hide Find;
    FindCons(c, a + "}}");
    assert [c] + (a + "}}") == [c] + a + "}}";
  }

  lemma OpenedCloses(a: string)
    requires Closes(a)
    ensures Closes("{{" + a)
  {
    hide Closes;
    ClosesCons('{', a);
    ClosesCons('{', "{" + a);
    assert "{" + ("{" + a) == "{{" + a;
  }

  lemma ClosesLater(y: string)
    requires y != [] && Closes(y)
    ensures Closes(y[1..])
  {
    hide Find;
    FindStep(y + "}}", "}}");
    assert (y + "}}")[1..] == y[1..] + "}}";
  }

  /** A text up to its first closing braces is passed over by a turn whose token it does not end in. */
  lemma {:induction false} PassesOver(a: string, y: string, x: string, with: string)
    requires IsName(a) && Closes(y)
    requires forall i | 0 <= i <= |y| :: y[i..] != "{{" + a
    ensures var pat := "{{" + a + "}}"; Replace(y + "}}" + x, pat, with) == y + "}}" + Replace(x, pat, with)
    decreases |y|
  {
    hide Closes, Replace, Leads;
    var pat, s := "{{" + a + "}}", y + "}}" + x;
    assert y[0..] == y;
    OpenedCloses(a);
    if pat <= s {
      SameText("{{" + a, y, x);
    }
    ReplaceStep(s, pat, with);
    if y == [] {
      var z := "}" + x;
      assert s[1..] == z && z[1..] == x;
      ReplaceStep(z, pat, with);
    } else {
      ClosesLater(y);
      forall i | 0 <= i <= |y| - 1 ensures y[1..][i..] != "{{" + a {
        assert y[1..][i..] == y[i + 1..];
      }
      assert s[1..] == y[1..] + "}}" + x;
      PassesOver(a, y[1..], x, with);
      assert [y[0]] + (y[1..] + "}}" + Replace(x, pat, with)) == y + "}}" + Replace(x, pat, with);
    }
  }

  /** A token's own text, met by another token's turn, is passed over unless it ends in that token's. */
  lemma OtherTokenSkipped(a: string, b: string, x: string, with: string)
    requires IsName(a) && IsName(b) && a != b && !Buries(b, a)
    ensures var pat, own := "{{" + a + "}}", "{{" + b + "}}"; Replace(own + x, pat, with) == own + Replace(x, pat, with)
  {
    hide Closes, Replace;
    var y, own := "{{" + b, "{{" + b + "}}";
    OpenedCloses(b);
    forall i | 0 <= i <= |y| ensures y[i..] != "{{" + a {
      NotAtOffset(a, b, i);
    }
    PassesOver(a, y, x, with);
  }

  lemma NotAtOffset(a: string, b: string, i: nat)
    requires IsName(a) && IsName(b) && a != b && !Buries(b, a) && i <= |b| + 2
    ensures ("{{" + b)[i..] != "{{" + a
  {
    hide Closes;
    var y, t := "{{" + b, "{{" + a;
    if i == 0 {
      assert y[2..] == b && t[2..] == a && y[0..] == y;
    } else if i == 1 {
      assert y[1..] == "{" + b && t[1] == '{' && |b| > 0 ==> ("{" + b)[1] == b[0];
    } else {
      assert y[i..] == b[i - 2..];
    }
  }

  lemma ReplaceFirst(pat: string, x: string, with: string)
    requires pat != []
    ensures Replace(pat + x, pat, with) == with + Replace(x, pat, with)
  {
    assert (pat + x)[|pat|..] == x;
  }

  /** No other token's turn starts at the brace before a token. */
  lemma NotAcross(a: string, x: string)
    requires IsName(a) && "{{" <= x
    ensures !("{{" + a + "}}" <= "{" + x)
  {
    hide Find;
    var pat, s := "{{" + a + "}}", "{" + x;
    assert s[2] == x[1] == '{';
    assert pat[2] == if a == [] then '}' else a[0];
  }

  // ----- the scanner's pieces

  lemma BeforeTokenIsInert(raw: string)
    requires Find(raw, "{{").Some?
    ensures Inert(raw[..Find(raw, "{{").value])
  {
    hide Find;
    var start := Find(raw, "{{").value;
    forall i | 0 <= i < start ensures !(raw[i] == '{' && raw[i + 1] == '{') {
      FindIsFirst(raw, "{{", i);
      assert raw[i..][0] == raw[i] && raw[i..][1] == raw[i + 1];
    }
    assert raw[start..][0] == raw[start] == '{';
  }

  /** The text before a token never runs into it, and its braces close at the first chance. */
  lemma ScanPieces(raw: string)
    ensures ScanOne(raw).Plain? ==> Single(raw)
    ensures ScanOne(raw).Open? ==> !Single(raw)
    ensures ScanOne(raw).Closed? ==> Inert(ScanOne(raw).before)
    ensures ScanOne(raw).Closed? ==> Closes(ScanOne(raw).inner)
  {
    hide Find, Inert, Single;
    SingleIsExact(raw);
    if Find(raw, "{{").Some? {
      BeforeTokenIsInert(raw);
    }
    if ScanOne(raw).Closed? {
      var start := Find(raw, "{{").value;
      var after := raw[start..];
      var end := Find(after, "}}").value;
      SplitsAround(raw, start, end);
      ClosesFirst(after, end, ScanOne(raw).inner, ScanOne(raw).rest);
    }
  }

  lemma ClosesFirst(after: string, end: nat, inner: string, rest: string)
    requires after == "{{" + inner + "}}" + rest && Find(after, "}}") == Some(end) && end == |inner| + 2
    ensures Closes(inner)
  {
    hide Find;
    var s := inner + "}}" + rest;
    assert after == "{" + ("{" + s);
    FindCons('{', "{" + s);
    FindCons('{', s);
    FindInPrefix(inner + "}}", rest, "}}", |inner|);
  }

  lemma FindCons(c: char, s: string)
    requires c != '}'
    ensures Find([c] + s, "}}") == match Find(s, "}}") case Some(n) => Some(n + 1) case None => None
  {
    assert ([c] + s)[1..] == s && ([c] + s)[0] == c;
  }

  lemma ScanTokens(raw: string)
    requires ScanOne(raw).Closed?
    ensures Token("{{" + ScanOne(raw).inner + "}}", Some(ScanOne(raw).inner)) in Tokens(raw)
    ensures forall t | t in Tokens(ScanOne(raw).rest) :: t in Tokens(raw)
    ensures ScanOne(raw).inner in Inners(Tokens(raw))
    ensures Inners(Tokens(ScanOne(raw).rest)) <= Inners(Tokens(raw))
  {
    hide ScanOne, Find;
    var first := Token("{{" + ScanOne(raw).inner + "}}", Some(ScanOne(raw).inner));
    assert Tokens(raw) == [first] + Tokens(ScanOne(raw).rest);
    assert first in Tokens(raw);
    forall i | i in Inners(Tokens(ScanOne(raw).rest)) ensures i in Inners(Tokens(raw)) {
      var u :| u in Tokens(ScanOne(raw).rest) && u.inner == Some(i);
      assert u in Tokens(raw);
    }
  }

  lemma StartsWithLetter(inner: string, vals: Values)
    requires Resolve(inner, vals).Some?
    ensures inner != [] && inner[0] != '{'
  {
    hide KnobText;
    assert Parse(inner).Some?;
  }

  /** What resolves begins with a letter. */
  lemma ResolvedIsName(inner: string, vals: Values)
    requires Resolve(inner, vals).Some? && Closes(inner)
    ensures IsName(inner)
  {
    hide Find, Resolve;
    StartsWithLetter(inner, vals);
  }

  // ----- one turn

  lemma {:induction false} RenderNothing(raw: string, vals: Values)
    ensures Render(raw, {}, vals) == raw
    decreases |raw|
  {
    hide Resolve, ScanOne;
    if ScanOne(raw).Closed? {
      RenderNothing(ScanOne(raw).rest, vals);
    }
  }

  /** What a partly substituted string begins with: a token that waits, or what the whole one begins with. */
  lemma {:induction false} LeadIsKept(raw: string, done: set<string>, vals: Values)
    requires Guarded(raw, vals)
    ensures Leads(Render(raw, done, vals)) ==> "{{" <= Render(raw, done, vals) || LeadsOpen(raw, vals)
    decreases |raw|
  {
    hide Resolve, ScanOne, Find, Single;
    match ScanOne(raw)
    case Closed(before, inner, rest) =>
      var w, x := Written(inner, done, vals), Render(rest, done, vals);
      assert Render(raw, done, vals) == before + (w + x);
      LeadIsKept(rest, done, vals);
      if before != [] {
        assert (before + (w + x))[0] == before[0];
      } else {
        assert before + (w + x) == w + x;
        if w == [] {
          assert w + x == x;
        } else {
          assert (w + x)[0] == w[0];
          assert w[0] == ("{{" + inner + "}}")[0] == '{' || w == Resolve(inner, vals).value;
          assert w == "{{" + inner + "}}" ==> "{{" <= w + x;
        }
      }
    case _ =>
  }

  lemma WrittenTurn(inner: string, done: set<string>, vals: Values, a: string, x: string)
    requires IsName(inner) && Resolve(inner, vals).Some? && IsName(a) && Resolve(a, vals).Some?
    requires Single(Resolve(inner, vals).value) && (inner !in done ==> !Buries(inner, a))
    requires EndsOpen(Resolve(inner, vals).value) && Leads(x) ==> "{{" <= x
    ensures Replace(Written(inner, done, vals) + x, "{{" + a + "}}", Resolve(a, vals).value)
         == Written(inner, done + {a}, vals) + Replace(x, "{{" + a + "}}", Resolve(a, vals).value)
  {
    hide Resolve, IsName, Single, Buries;
    var pat, v := "{{" + a + "}}", Resolve(a, vals).value;
    if inner in done {
      var w := Resolve(inner, vals).value;
      if EndsOpen(w) && pat <= "{" + x {
        assert pat[1] == '{' == ("{" + x)[1] == x[0];
        NotAcross(a, x);
      }
      ReplaceSkips(w, x, pat, v);
    } else if inner == a {
      ReplaceFirst(pat, x, v);
    } else {
      OtherTokenSkipped(a, inner, x, v);
    }
  }

  /** One token's turn turns exactly its own occurrences into its value. */
  lemma {:induction false} TurnRenders(raw: string, done: set<string>, vals: Values, a: string)
    requires Guarded(raw, vals) && IsName(a) && Resolve(a, vals).Some? && TurnApart(Tokens(raw), done, a)
    ensures Replace(Render(raw, done, vals), "{{" + a + "}}", Resolve(a, vals).value) == Render(raw, done + {a}, vals)
    decreases |raw|
  {
    hide Resolve, Replace, Inert, Written, ScanOne, Tokens, Find, Single, IsName, EndsOpen, LeadsOpen, Leads, Buries;
    var pat, v := "{{" + a + "}}", Resolve(a, vals).value;
    ScanPieces(raw);
    match ScanOne(raw)
    case Closed(before, inner, rest) =>
      var w, x := Written(inner, done, vals), Render(rest, done, vals);
      ScanTokens(raw);
      assert Render(raw, done, vals) == before + (w + x);
      SkipBefore(before, w + x, pat, v);
      ResolvedIsName(inner, vals);
      SingleIsExact(Resolve(inner, vals).value);
      LeadIsKept(rest, done, vals);
      WrittenTurn(inner, done, vals, a, x);
      TurnRenders(rest, done, vals, a);
      AssocText(before, Written(inner, done + {a}, vals), Render(rest, done + {a}, vals));
    case _ =>
      ReplaceAbsent(raw, pat, v);
  }

  lemma SkipBefore(a: string, x: string, pat: string, with: string)
    requires Inert(a) && "{{" <= pat
    ensures Replace(a + x, pat, with) == a + Replace(x, pat, with)
  {
    ReplaceSkips(a, x, pat, with);
  }

  lemma AssocText(a: string, b: string, c: string)
    ensures a + (b + c) == a + b + c
  {
  }

  lemma {:induction false} TurnsRender(raw: string, done: set<string>, ts: seq<Token>, vals: Values)
    requires Guarded(raw, vals) && TurnsApart(ts, done) && forall t | t in ts :: t in Tokens(raw)
    requires forall t | t in Tokens(raw) && t.inner.Some? :: t in ts || t.inner.value in done
    requires forall t | t in Tokens(raw) :: t.text != []
    ensures InTurn(Render(raw, done, vals), ts, vals) == Render(raw, done + Inners(ts), vals)
    decreases |ts|
  {
    hide Resolve, Render, Replace, Tokens, IsName, Guarded, Buries;
    if ts == [] {
      assert done + Inners(ts) == done;
    } else {
      assert ts[0] in Tokens(raw);
      TokenIsName(raw, vals, ts[0]);
      var a := ts[0].inner.value;
      assert TurnApart(Tokens(raw), done, a);
      TurnRenders(raw, done, vals, a);
      assert forall t | t in ts :: t == ts[0] || t in ts[1..];
      TurnsRender(raw, done + {a}, ts[1..], vals);
      assert done + Inners(ts) == done + {a} + Inners(ts[1..]) by {
        InnersCons(ts);
      }
    }
  }

  lemma InnersCons(ts: seq<Token>)
    requires ts != [] && ts[0].inner.Some?
    ensures Inners(ts) == {ts[0].inner.value} + Inners(ts[1..])
  {
    assert ts == [ts[0]] + ts[1..];
  }

  lemma {:induction false} TokenIsName(raw: string, vals: Values, t: Token)
    requires Guarded(raw, vals) && t in Tokens(raw)
    ensures t.inner.Some? && t.text == "{{" + t.inner.value + "}}"
    ensures IsName(t.inner.value) && Resolve(t.inner.value, vals).Some?
    decreases |raw|
  {
    hide ScanOne, Resolve, IsName, Find, EndsOpen, LeadsOpen;
    if ScanOne(raw).Closed? {
      ScanTokens(raw);
      ScanPieces(raw);
      if t in Tokens(ScanOne(raw).rest) {
        TokenIsName(ScanOne(raw).rest, vals, t);
      } else {
        ResolvedIsName(ScanOne(raw).inner, vals);
      }
    }
  }

  // ----- when replacing in turn is one simultaneous substitution

  lemma {:induction false} LeadIsRendered(raw: string, done: set<string>, vals: Values)
    requires Inners(Tokens(raw)) <= done
    ensures Leads(Render(raw, done, vals)) <==> LeadsOpen(raw, vals)
    decreases |raw|
  {
    hide Resolve, ScanOne, Tokens, Inners;
    match ScanOne(raw)
    case Closed(before, inner, rest) =>
      ScanTokens(raw);
      LeadIsRendered(rest, done, vals);
      var w, x := Written(inner, done, vals), Render(rest, done, vals);
      assert Render(raw, done, vals) == before + (w + x);
      if before == [] {
        assert before + (w + x) == w + x;
        if w == [] {
          assert w + x == x;
        } else {
          assert (w + x)[0] == w[0];
          assert Resolve(inner, vals).None? ==> w == "{{" + inner + "}}" && w[0] == '{';
        }
      } else {
        assert (before + (w + x))[0] == before[0];
      }
    case _ =>
  }

  /** The guard says exactly that no double brace is left by a simultaneous substitution. */
  lemma {:induction false} GuardIsExact(raw: string, done: set<string>, vals: Values)
    requires Inners(Tokens(raw)) <= done
    ensures Find(Render(raw, done, vals), "{{") == None <==> Guarded(raw, vals)
    decreases |raw|
  {
    hide Resolve, ScanOne, Tokens, Inners, Find, Single, EndsOpen, LeadsOpen, Inert, Leads, Render, Written;
    ScanPieces(raw);
    RenderScan(raw, done, vals);
    SingleIsExact(Render(raw, done, vals));
    if ScanOne(raw).Closed? {
      var before, inner, rest := ScanOne(raw).before, ScanOne(raw).inner, ScanOne(raw).rest;
      var w, x := Written(inner, done, vals), Render(rest, done, vals);
      ScanTokens(raw);
      SingleBehind(before, w, x);
      WrittenOnce(inner, done, vals);
      if Resolve(inner, vals).Some? {
        GuardIsExact(rest, done, vals);
        LeadIsRendered(rest, done, vals);
        SingleIsExact(x);
        SingleIsExact(w);
      }
    }
  }

  lemma RenderScan(raw: string, done: set<string>, vals: Values)
    ensures var scan := ScanOne(raw);
      Render(raw, done, vals)
      == if scan.Closed? then scan.before + (Written(scan.inner, done, vals) + Render(scan.rest, done, vals)) else raw
  {
    hide ScanOne, Written;
  }

  lemma WrittenOnce(inner: string, done: set<string>, vals: Values)
    requires inner in done
    ensures Resolve(inner, vals).Some? ==> Written(inner, done, vals) == Resolve(inner, vals).value
    ensures Resolve(inner, vals).None? ==> !Single(Written(inner, done, vals))
  {
    hide Resolve, Single;
    NotSingle("{{" + inner + "}}");
  }

  lemma NotSingle(s: string)
    requires "{{" <= s
    ensures !Single(s)
  {
    assert s[0] == '{' && s[0 + 1] == '{';
  }

  lemma SingleBehind(a: string, b: string, c: string)
    requires Inert(a)
    ensures Single(a + (b + c)) <==> Single(b) && Single(c) && !(EndsOpen(b) && Leads(c))
  {
    hide Single, EndsOpen;
    SingleAppend(a, b + c);
    SingleAppend(b, c);
  }

  /** Replacing token by token is one simultaneous substitution, and is not refused, exactly under the
      guard; the values are arbitrary. */
  lemma SubstitutionIsSimultaneous(raw: string, vals: Values)
    requires NamesApart(raw)
    ensures forall t | t in Tokens(raw) :: t.text != []
    ensures var once := Render(raw, Inners(Tokens(raw)), vals); var out := InTurn(raw, Tokens(raw), vals);
      && (out == once && Find(out, "{{") == None <==> Find(once, "{{") == None)
      && (Find(once, "{{") == None <==> Guarded(raw, vals))
  {
    hide Find, Render, InTurn, Guarded, TurnsApart;
    TokensAreNotEmpty(raw);
    GuardIsExact(raw, Inners(Tokens(raw)), vals);
    if Guarded(raw, vals) {
      RenderNothing(raw, vals);
      TurnsRender(raw, {}, Tokens(raw), vals);
      assert {} + Inners(Tokens(raw)) == Inners(Tokens(raw));
    }
  }

  /** Every token closes and resolves. */
  predicate AllResolve(raw: string, vals: Values) {
    forall t | t in Tokens(raw) :: t.inner.Some? && Resolve(t.inner.value, vals).Some?
  }

  /** No value a token stands for holds a double brace or ends in a brace. */
  predicate ValuesApart(raw: string, vals: Values) {
    forall t | t in Tokens(raw) && t.inner.Some? && Resolve(t.inner.value, vals).Some? ::
      Apart(Resolve(t.inner.value, vals).value)
  }

  predicate Apart(v: string) { Find(v, "{{") == None && !EndsOpen(v) }

  /** Values with closing braces, or single opening ones short of their ends, are substituted as written. */
  lemma {:induction false} ApartIsGuarded(raw: string, vals: Values)
    requires AllResolve(raw, vals) && ValuesApart(raw, vals)
    ensures Guarded(raw, vals)
    decreases |raw|
  {
    hide ScanOne, Resolve, Find, EndsOpen, LeadsOpen, Inners;
    var scan := ScanOne(raw);
    assert scan.Open? ==> Token(scan.after, None) in Tokens(raw);
    if scan.Closed? {
      ScanTokens(raw);
      assert Token("{{" + scan.inner + "}}", Some(scan.inner)) in Tokens(raw);
      ApartIsGuarded(scan.rest, vals);
    }
  }

  // ----- what validation buys

  /** RunOptions::knobs_for: the variant's knobs with this invocation's overrides applied. */
  function KnobsFor(v: Variant, overrides: map<string, KnobValue>): map<string, KnobValue> {
    v.knobs + overrides
  }

  /** The values a run of variant `v` substitutes. */
  predicate ForVariant(e: Entrant, v: Variant, overrides: map<string, KnobValue>, vals: Values) {
    vals.knobs == KnobsFor(v, overrides) && forall c | c in e.containers :: c in vals.containers
  }

  /** In a descriptor that validates every token closes and resolves, for every variant and whatever the
      overrides; what is left of the guard is about the values alone. */
  lemma ValidatedSubstitution(e: Entrant, v: Variant, key: string, raw: string, overrides: map<string, KnobValue>,
                              vals: Values)
    requires EnvErrors(e, e.env, e.variants) + VariantErrors(e, e.variants) == []
    requires v in e.variants && ((key, raw) in e.env || (key, raw) in v.env)
    requires NamesApart(raw) && ForVariant(e, v, overrides, vals)
    ensures AllResolve(raw, vals) && forall t | t in Tokens(raw) :: t.text != []
    ensures var once := Render(raw, Inners(Tokens(raw)), vals); var out := InTurn(raw, Tokens(raw), vals);
      && (out == once && Find(out, "{{") == None <==> Guarded(raw, vals))
      && (ValuesApart(raw, vals) ==> out == once && Find(out, "{{") == None)
  {
    hide Tokens, Find, InTurn, Render, Resolve, Parse, ValuesApart, Guarded;
    var variants := if (key, raw) in e.env then e.variants else [v];
    if (key, raw) in e.env {
      NoErrorsInEnv(e, key, raw, e.env, e.variants);
    } else {
      NoVariantErrors(e, v, e.variants);
      NoErrorsInEnv(e, key, raw, v.env, [v]);
    }
    forall t | t in Tokens(raw)
      ensures t.inner.Some? && Resolve(t.inner.value, vals).Some?
    {
      NoErrorsInTokens(e, key, Tokens(raw), variants, t);
      ValidTokenResolves(e, v, key, t, variants, overrides, vals);
    }
    SubstitutionIsSimultaneous(raw, vals);
    if ValuesApart(raw, vals) {
      ApartIsGuarded(raw, vals);
    }
  }

  lemma {:induction false} NoVariantErrors(e: Entrant, v: Variant, variants: seq<Variant>)
    requires VariantErrors(e, variants) == [] && v in variants
    ensures EnvErrors(e, v.env, [v]) == []
  {
    hide EnvErrors;
    if v != variants[0] { NoVariantErrors(e, v, variants[1..]); }
  }

  lemma {:induction false} NoErrorsInEnv(e: Entrant, key: string, raw: string, env: seq<(string, string)>,
                                         variants: seq<Variant>)
    requires EnvErrors(e, env, variants) == [] && (key, raw) in env
    ensures TokensErrors(e, key, Tokens(raw), variants) == []
  {
    hide TokensErrors, Tokens;
    if (key, raw) != env[0] { NoErrorsInEnv(e, key, raw, env[1..], variants); }
  }

  lemma {:induction false} NoErrorsInTokens(e: Entrant, key: string, ts: seq<Token>, variants: seq<Variant>,
                                            t: Token)
    requires TokensErrors(e, key, ts, variants) == [] && t in ts
    ensures TokenErrors(e, key, t, variants) == []
  {
    hide TokenErrors;
    if t != ts[0] { NoErrorsInTokens(e, key, ts[1..], variants, t); }
  }

  lemma ValidTokenResolves(e: Entrant, v: Variant, key: string, t: Token, variants: seq<Variant>,
                           overrides: map<string, KnobValue>, vals: Values)
    requires TokenErrors(e, key, t, variants) == [] && v in variants && v in e.variants
    requires ForVariant(e, v, overrides, vals)
    ensures t.inner.Some? && Resolve(t.inner.value, vals).Some?
  {
    hide KnobText, Parse;
    var inner := t.inner.value;
    if Parse(inner).value.Knob? {
      NoKnobErrors(key, Parse(inner).value.name, variants, v);
    }
  }

  lemma {:induction false} NoKnobErrors(key: string, k: string, variants: seq<Variant>, v: Variant)
    requires KnobErrors(key, k, variants) == [] && v in variants
    ensures k in v.knobs
  {
    if v != variants[0] { NoKnobErrors(key, k, variants[1..], v); }
  }

  // ----- a value that spells another token

  predicate NoBraces(s: string) { '{' !in s && '}' !in s }

  lemma {:induction false} FindPast(a: string, x: string)
    requires '}' !in a && "}}" <= x
    ensures Find(a + x, "}}") == Some(|a|)
  {
    if a == [] {
      assert a + x == x;
    } else {
      assert (a + x)[0] == a[0] && a[0] in a;
      assert (a + x)[1..] == a[1..] + x;
      FindPast(a[1..], x);
    }
  }

  lemma BraceFreeIsName(a: string)
    requires NoBraces(a)
    ensures IsName(a) && forall b :: !Buries(a, b)
  {
    FindPast(a, "}}");
    assert a + "}}" + "" == a + "}}";
    forall b ensures !Buries(a, b) {
      if |a| >= |b| + 2 {
        assert a[|a| - |b| - 2..][0] == a[|a| - |b| - 2];
      }
    }
  }

  lemma ScanToken(inner: string, rest: string)
    requires '}' !in inner
    ensures ScanOne("{{" + inner + "}}" + rest) == Closed("", inner, rest)
  {
    var raw := "{{" + inner + "}}" + rest;
    assert "{{" <= raw && raw[0..] == raw;
    assert raw == "{{" + inner + ("}}" + rest);
    FindPast("{{" + inner, "}}" + rest);
  }

  /** A value that spells another token is itself replaced in that token's turn, where a
      simultaneous substitution would leave it. */
  lemma NestedValueIsReplacedAgain(a: string, b: string, v: string, vals: Values)
    requires NoBraces(a) && NoBraces(b) && a != b
    requires Resolve(a, vals) == Some("{{" + b + "}}") && Resolve(b, vals) == Some(v)
    ensures var raw := "{{" + a + "}}" + ("{{" + b + "}}");
      && (forall t | t in Tokens(raw) :: t.text != [])
      && InTurn(raw, Tokens(raw), vals) == v + v
      && Render(raw, Inners(Tokens(raw)), vals) == "{{" + b + "}}" + v
  {
    hide Find, Replace, Resolve, ScanOne, IsName, Tokens, InTurn, NoBraces;
    var t, g := "{{" + a + "}}", "{{" + b + "}}";
    assert '}' !in a && '}' !in b by {
      BraceFreeCloses(a);
      BraceFreeCloses(b);
    }
    TwoTokens(a, b);
    assert g + "" == g && v + "" == v;
    var ts := [Token(t, Some(a)), Token(g, Some(b))];
    BraceFreeIsName(a);
    BraceFreeIsName(b);
    OtherTokenSkipped(a, b, "", g);
    NoToken();
    ReplaceFirst(t, g, g);
    ReplaceFirst(g, g, v);
    ReplaceFirst(g, "", v);
    TwoTurns(t + g, ts, vals);
    var done := Inners(ts);
    assert ts[0] in ts && ts[1] in ts && a in done && b in done;
    assert Render(g, done, vals) == "" + v + Render("", done, vals) == v;
    assert Render(t + g, done, vals) == "" + g + Render(g, done, vals) == g + v;
  }

  lemma BraceFreeCloses(a: string)
    requires NoBraces(a)
    ensures '}' !in a
  {
  }

  /** A string of two tokens. */
  lemma TwoTokens(a: string, b: string)
    requires '}' !in a && '}' !in b
    ensures var t, g := "{{" + a + "}}", "{{" + b + "}}";
      && ScanOne("") == Plain
      && ScanOne(g) == Closed("", b, "")
      && ScanOne(t + g) == Closed("", a, g)
      && Tokens(t + g) == [Token(t, Some(a)), Token(g, Some(b))]
  {
    hide Find, ScanOne;
    var t, g := "{{" + a + "}}", "{{" + b + "}}";
    ScanToken(a, g);
    ScanToken(b, "");
    NoToken();
    assert g + "" == g;
    TokensOfClosed(t + g);
    TokensOfClosed(g);
  }

  lemma TwoTurns(out: string, ts: seq<Token>, vals: Values)
    requires |ts| == 2 && ts[0].text != [] && ts[1].text != []
    ensures InTurn(out, ts, vals) == ReplaceToken(ReplaceToken(out, ts[0], vals), ts[1], vals)
  {
    hide Resolve, Replace;
    var one := ReplaceToken(out, ts[0], vals);
    var two := ReplaceToken(one, ts[1], vals);
    assert InTurn(one, ts[1..], vals) == InTurn(two, ts[1..][1..], vals) == two;
  }

  lemma NoToken()
    ensures ScanOne("") == Plain && Tokens("") == [] && forall pat, with | pat != "" :: Replace("", pat, with) == ""
  {}

  // ----- a name that holds another token's opening

  lemma {:induction false} ReplaceNothing(s: string, pat: string, with: string)
    requires '}' in pat && '}' !in s
    ensures Replace(s, pat, with) == s
  {
    var i :| 0 <= i < |pat| && pat[i] == '}';
    if |pat| <= |s| {
      assert s[i] != pat[i];
    }
    if s != [] {
      ReplaceNothing(s[1..], pat, with);
    }
  }

  lemma OpeningPassed(a: string, p: string, x: string)
    requires NoBraces(a) && NoBraces(p) && p != []
    ensures Inert("{" + p) && !("{{" + a + "}}" <= "{{" + p + "{{" + a + x)
  {
    var pat, s := "{{" + a + "}}", "{{" + p + "{{" + a + x;
    assert pat[|a| + 2] == '}';
    assert s[|a| + 2] == (p + "{{" + a)[|a|];
    assert '}' !in p + "{{" + a;
    var o := "{" + p;
    forall i | 0 <= i < |o| - 1 ensures !(o[i] == '{' && o[i + 1] == '{') {
      assert o[i + 1] == p[i];
    }
    assert o[|o| - 1] == p[|p| - 1];
  }

  /** With a knob or container whose name holds another token's opening, that token's turn breaks the
      name, and the substitution is refused although the guard holds. */
  lemma NestedNameIsRefused(a: string, p: string, v: string, u: string, vals: Values)
    requires NoBraces(a) && NoBraces(p) && p != [] && NoBraces(v) && NoBraces(u)
    requires Resolve(a, vals) == Some(v) && Resolve(p + "{{" + a, vals) == Some(u)
    ensures var raw := "{{" + a + "}}" + ("{{" + (p + "{{" + a) + "}}");
      && Guarded(raw, vals)
      && (forall t | t in Tokens(raw) :: t.text != [])
      && Find(InTurn(raw, Tokens(raw), vals), "{{").Some?
  {
    hide Find, Replace, Resolve, ScanOne, Inert, Single, Tokens, InTurn, NoBraces;
    var b := p + "{{" + a;
    assert '}' !in b by {
      NoClosing(a, p);
    }
    var t, g, out := "{{" + a + "}}", "{{" + b + "}}", v + ("{{" + p + v);
    TwoTokens(a, b);
    BraceFreeIsApart(v);
    BraceFreeIsApart(u);
    assert Guarded("", vals) && Guarded(g, vals) && Guarded(t + g, vals);
    ReplaceFirst(t, g, v);
    OpeningBroken(a, p, v);
    var ts := [Token(t, Some(a)), Token(g, Some(b))];
    TwoTurns(t + g, ts, vals);
    assert '}' !in out by {
      NoClosing(v, v);
      NoClosing(v, p);
    }
    assert '}' in g by {
      assert g[|g| - 1] == '}';
    }
    ReplaceNothing(out, g, u);
    SingleIsExact(out);
    SingleAppend(v, "{{" + p + v);
    assert "{{" + p + v == "{{" + (p + v);
    NotSingle("{{" + p + v);
  }

  lemma NoClosing(a: string, p: string)
    requires NoBraces(a) && NoBraces(p)
    ensures '}' !in p + "{{" + a && '}' !in a + ("{{" + p + a)
  {
  }

  lemma BraceFreeIsApart(v: string)
    requires NoBraces(v)
    ensures Apart(v)
  {
    SingleIsExact(v);
  }

  lemma OpeningBroken(a: string, p: string, v: string)
    requires NoBraces(a) && NoBraces(p) && p != []
    ensures Replace("{{" + (p + "{{" + a) + "}}", "{{" + a + "}}", v) == "{{" + p + v
  {
    hide Replace, Inert, NoBraces;
    var pat, s := "{{" + a + "}}", "{{" + (p + "{{" + a) + "}}";
    assert s == "{{" + p + "{{" + a + "}}";
    OpeningPassed(a, p, "}}");
    ReplaceStep(s, pat, v);
    assert s[1..] == ("{" + p) + (pat + "");
    SkipBefore("{" + p, pat + "", pat, v);
    ReplaceFirst(pat, "", v);
    NoToken();
    assert "{" + (("{" + p) + (v + "")) == "{{" + p + v;
  }
}
