/** What each spelling of the vocabulary is replaced by, a token on its own. */
module PlaceholderValues {
  import opened Placeholders
  import opened Wire
  import Decimal

  /** A string in which a double brace is left is refused. */
  function Kept(v: string): Option<string> { if Find(v, "{{") == None then Some(v) else None }

  /** A lone token becomes its value, or is refused with it. */
  lemma LoneToken(inner: string, vals: Values, v: string)
    requires Closes(inner) && !Leads(inner) && Resolve(inner, vals) == Some(v)
    ensures (forall t | t in Tokens("{{" + inner + "}}") :: t.text != [])
    ensures Substituted("{{" + inner + "}}", vals) == Kept(v)
  {
    hide Find, Replace, Resolve, ScanOne, Tokens, Closes;
    var raw := "{{" + inner + "}}";
    ScanLone(inner);
    NoToken();
    TokensOfClosed(raw);
    var ts := [Token(raw, Some(inner))];
    assert Tokens(raw) == ts + [] == ts;
    assert raw + "" == raw && v + "" == v;
    ReplaceFirst(raw, "", v);
    assert ts[1..] == [];
    assert InTurn(raw, ts, vals) == InTurn(ReplaceToken(raw, ts[0], vals), ts[1..], vals) == v;
  }

  lemma ScanLone(inner: string)
    requires Closes(inner)
    ensures ScanOne("{{" + inner + "}}") == Closed("", inner, "")
  {
    hide Find, Closes;
    var raw := "{{" + inner + "}}";
    OpenedCloses(inner);
    CloseIs("{{" + inner, "");
    assert raw + "" == raw && raw[0..] == raw && "{{" <= raw;
    FindStep(raw, "{{");
    assert raw[2..|inner| + 2] == inner && raw[|inner| + 2 + 2..] == "";
  }

  lemma OpenName(inner: string)
    requires '}' !in inner
    ensures Closes(inner)
  {
    FindPast(inner, "}}");
    assert inner + "}}" + "" == inner + "}}";
  }

  /** A name without a closing brace, between double braces. */
  predicate IsTokenOf(token: string, inner: string) {
    token == "{{" + inner + "}}" && '}' !in inner && !Leads(inner)
  }

  lemma TokenGives(token: string, inner: string, vals: Values, v: string)
    requires IsTokenOf(token, inner) && Resolve(inner, vals) == Some(v)
    ensures Substituted(token, vals) == Kept(v)
  {
    hide Substituted, Kept, Closes, Resolve;
    OpenName(inner);
    LoneToken(inner, vals, v);
  }

  lemma InternalTokens()
    ensures IsTokenOf("{{broker_internal}}", "broker_internal")
    ensures IsTokenOf("{{registry_internal}}", "registry_internal")
  {
  }

  lemma ServerTokens()
    ensures IsTokenOf("{{clickhouse_internal}}", "clickhouse_internal")
    ensures IsTokenOf("{{clickhouse_password}}", "clickhouse_password")
  {
  }

  lemma ConsumerTokens()
    ensures IsTokenOf("{{topic}}", "topic") && IsTokenOf("{{group_id}}", "group_id")
    ensures IsTokenOf("{{offset_reset}}", "offset_reset")
  {
  }

  /** The addresses and the password. */
  lemma AddressesAreSpelled(vals: Values)
    ensures Substituted("{{broker_internal}}", vals) == Kept(vals.broker)
    ensures Substituted("{{registry_internal}}", vals) == Kept(vals.registry)
    ensures Substituted("{{clickhouse_internal}}", vals) == Kept(vals.clickhouse)
    ensures Substituted("{{clickhouse_password}}", vals) == Kept(vals.password)
  {
    hide Substituted, Kept, IsTokenOf;
    InternalTokens();
    ServerTokens();
    TokenGives("{{broker_internal}}", "broker_internal", vals, vals.broker);
    TokenGives("{{registry_internal}}", "registry_internal", vals, vals.registry);
    TokenGives("{{clickhouse_internal}}", "clickhouse_internal", vals, vals.clickhouse);
    TokenGives("{{clickhouse_password}}", "clickhouse_password", vals, vals.password);
  }

  /** The topic, the consumer group and where it starts to read. */
  lemma ConsumerIsSpelled(vals: Values)
    ensures Substituted("{{topic}}", vals) == Kept(vals.topic)
    ensures Substituted("{{group_id}}", vals) == Kept(vals.groupId)
    ensures Substituted("{{offset_reset}}", vals) == Kept(vals.offsetReset)
  {
    hide Substituted, Kept, IsTokenOf;
    ConsumerTokens();
    TokenGives("{{topic}}", "topic", vals, vals.topic);
    TokenGives("{{group_id}}", "group_id", vals, vals.groupId);
    TokenGives("{{offset_reset}}", "offset_reset", vals, vals.offsetReset);
  }

  /** An integer as the arm sees it. */
  lemma IntegerIsSpelled(n: int)
    ensures Decimal.SpellsInt(KnobText(Integer(n)), n)
  {
    Decimal.NumeralSpells(KnobText(Integer(n)), n);
  }

  /** A knob is the invocation's override where there is one and the variant's own otherwise: a string as
      it is, an integer in decimal. */
  lemma KnobIsSpelled(v: Variant, overrides: map<string, KnobValue>, vals: Values, k: string)
    requires vals.knobs == KnobsFor(v, overrides) && Closes("knob:" + k) && (k in overrides || k in v.knobs)
    ensures var value := if k in overrides then overrides[k] else v.knobs[k];
      && Substituted("{{" + ("knob:" + k) + "}}", vals) == Kept(KnobText(value))
      && (value.Text? ==> KnobText(value) == value.s)
      && (value.Integer? ==> Decimal.SpellsInt(KnobText(value), value.n))
      && (value.Other? ==> KnobText(value) == "")
  {
    hide Substituted, Kept, Closes, Find;
    var value := if k in overrides then overrides[k] else v.knobs[k];
    assert ("knob:" + k)[5..] == k;
    KnobParses(k);
    if value.Integer? {
      IntegerIsSpelled(value.n);
    }
    LoneToken("knob:" + k, vals, KnobText(value));
  }

  lemma KnobParses(k: string)
    ensures Parse("knob:" + k) == Some(Knob(k)) && !Leads("knob:" + k)
  {
    var inner := "knob:" + k;
    assert inner[4] == ':' && inner[0] == 'k' && inner[5..] == k;
    assert "knob:" <= inner;
  }

  lemma ContainerIsSpelled(vals: Values, c: string)
    requires Closes("container:" + c) && c in vals.containers
    ensures Substituted("{{" + ("container:" + c) + "}}", vals) == Kept(vals.containers[c])
  {
    hide Substituted, Kept, Closes, Find;
    ContainerParses(c);
    LoneToken("container:" + c, vals, vals.containers[c]);
  }

  lemma ContainerParses(c: string)
    ensures Parse("container:" + c) == Some(Container(c)) && !Leads("container:" + c)
  {
    var inner := "container:" + c;
    assert inner[9] == ':' && inner[0] == 'c' && inner[1] == 'o' && inner[10..] == c;
    assert "container:" <= inner;
  }

  // ----- what is refused

  lemma LoneTokenStays(inner: string, vals: Values)
    requires Closes(inner) && Resolve(inner, vals) == None
    ensures Substituted("{{" + inner + "}}", vals) == None
  {
    hide Find, Replace, Resolve, ScanOne, Tokens, Closes;
    var raw := "{{" + inner + "}}";
    ScanLone(inner);
    NoToken();
    TokensOfClosed(raw);
    var ts := [Token(raw, Some(inner))];
    assert Tokens(raw) == ts + [] == ts && ts[1..] == [];
    assert InTurn(raw, ts, vals) == InTurn(ReplaceToken(raw, ts[0], vals), ts[1..], vals) == raw;
    assert "{{" <= raw;
    FindStep(raw, "{{");
  }

  /** A spelling that is none of the nine is refused at run time, and reported by validation. */
  lemma UnknownIsRefused(inner: string, vals: Values, e: Entrant, key: string, variants: seq<Variant>)
    requires '}' !in inner && !("knob:" <= inner) && !("container:" <= inner)
    requires inner != "broker_internal" && inner != "registry_internal" && inner != "clickhouse_internal"
    requires inner != "clickhouse_password" && inner != "topic" && inner != "group_id" && inner != "offset_reset"
    ensures Substituted("{{" + inner + "}}", vals) == None
    ensures TokenErrors(e, key, Token("{{" + inner + "}}", Some(inner)), variants) == [Unknown(key, inner)]
  {
    hide Substituted, Closes;
    OpenName(inner);
    LoneTokenStays(inner, vals);
  }

  /** So is the name of a knob or a container that is not there. */
  lemma MissingIsRefused(name: string, vals: Values)
    requires '}' !in name
    ensures name !in vals.knobs ==> Substituted("{{" + ("knob:" + name) + "}}", vals) == None
    ensures name !in vals.containers ==> Substituted("{{" + ("container:" + name) + "}}", vals) == None
  {
    hide Substituted, Closes, Parse;
    OpenName("knob:" + name);
    OpenName("container:" + name);
    KnobParses(name);
    ContainerParses(name);
    if name !in vals.knobs {
      LoneTokenStays("knob:" + name, vals);
    }
    if name !in vals.containers {
      LoneTokenStays("container:" + name, vals);
    }
  }
}
