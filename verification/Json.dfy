/** JSON documents as trees (RFC 8259, sections 3 to 7). */
module Json {
  import opened Wrappers

  /** The integers that the JSON parser does not turn into floating-point numbers. */
  type JsonInt = n: int | -0x8000_0000_0000_0000 <= n < 0x1_0000_0000_0000_0000

  datatype Json =
    | JNull
    | JBool(b: bool)
    | JInt(n: JsonInt)
    | JFloat(r: real)
    | JString(s: string)
    | JArray(items: seq<Json>)
    | JObject(members: seq<Member>)

  datatype Member = Member(name: string, value: Json)

  datatype FieldError = MissingField(field: string) | DuplicateField(field: string)

  /** The members with one of some names, in document order. */
  function Named(ms: seq<Member>, names: set<string>): (r: seq<Member>)
    ensures forall m | m in r :: m in ms && m.name in names
  {
    if ms == [] then []
    else if ms[0].name in names then [ms[0]] + Named(ms[1..], names)
    else Named(ms[1..], names)
  }

  /** The members that a flattened field does not see are those named by the other fields. */
  function Without(ms: seq<Member>, names: set<string>): seq<Member> {
    if ms == [] then []
    else if ms[0].name in names then Without(ms[1..], names)
    else [ms[0]] + Without(ms[1..], names)
  }

  lemma {:induction false} NamedAll(ms: seq<Member>, names: set<string>)
    requires forall m | m in ms :: m.name in names
    ensures Named(ms, names) == ms
  {
    if ms == [] {
    } else {
      NamedAll(ms[1..], names);
    }
  }

  lemma {:induction false} NamedNone(ms: seq<Member>, names: set<string>)
    requires forall m | m in ms :: m.name !in names
    ensures Named(ms, names) == []
  {
    if ms == [] {
    } else {
      NamedNone(ms[1..], names);
    }
  }

  lemma {:induction false} NamedAppend(ms: seq<Member>, ns: seq<Member>, names: set<string>)
    ensures Named(ms + ns, names) == Named(ms, names) + Named(ns, names)
  {
    if ms == [] {
      assert ms + ns == ns;
    } else {
      assert (ms + ns)[1..] == ms[1..] + ns;
      NamedAppend(ms[1..], ns, names);
    }
  }

  /** Members with other names do not matter. */
  lemma {:induction false} NamedWithout(ms: seq<Member>, others: set<string>, names: set<string>)
    requires others !! names
    ensures Named(Without(ms, others), names) == Named(ms, names)
  {
    if ms == [] {
    } else {
      NamedWithout(ms[1..], others, names);
      if ms[0].name !in others {
        NamedAppend([ms[0]], Without(ms[1..], others), names);
        NamedAppend([ms[0]], ms[1..], names);
        assert [ms[0]] + ms[1..] == ms;
      }
    }
  }

  lemma {:induction false} NamedNamed(ms: seq<Member>, more: set<string>, names: set<string>)
    requires names <= more
    ensures Named(Named(ms, more), names) == Named(ms, names)
  {
    if ms == [] {
    } else {
      NamedNamed(ms[1..], more, names);
      if ms[0].name in more {
        NamedAppend([ms[0]], Named(ms[1..], more), names);
        NamedAppend([ms[0]], ms[1..], names);
        assert [ms[0]] + ms[1..] == ms;
      }
    }
  }

  /** Two sets of names share out the members called by either. */
  lemma {:induction false} NamedEither(ms: seq<Member>, a: set<string>, b: set<string>)
    requires a !! b
    ensures |Named(ms, a + b)| == |Named(ms, a)| + |Named(ms, b)|
  {
    if ms == [] {
    } else {
      NamedEither(ms[1..], a, b);
    }
  }

  /** Both occur once exactly if two members are called by either, one by each. */
  lemma NamedOnce(ms: seq<Member>, a: set<string>, b: set<string>)
    requires a !! b
    ensures var fs := Named(ms, a + b);
            |Named(ms, a)| == |Named(ms, b)| == 1 <==> |fs| == 2 && (fs[0].name in a <==> fs[1].name in b)
    ensures var fs := Named(ms, a + b);
            |fs| == 2 && fs[0].name in a && fs[1].name in b ==> Named(ms, a) == [fs[0]] && Named(ms, b) == [fs[1]]
    ensures var fs := Named(ms, a + b);
            |fs| == 2 && fs[0].name in b && fs[1].name in a ==> Named(ms, a) == [fs[1]] && Named(ms, b) == [fs[0]]
    ensures var fs := Named(ms, a + b);
            |fs| == 1 ==> Named(ms, a) == (if fs[0].name in a then fs else [])
                          && Named(ms, b) == (if fs[0].name in a then [] else fs)
  {
    var fs := Named(ms, a + b);
    NamedEither(ms, a, b);
    NamedNamed(ms, a + b, a);
    NamedNamed(ms, a + b, b);
    if |fs| == 2 {
      NamedTwo(fs[0], fs[1], a);
      NamedTwo(fs[0], fs[1], b);
      assert fs == [fs[0], fs[1]] && fs[0] in fs && fs[1] in fs;
    }
    if |fs| == 1 {
      assert fs == [fs[0]] && fs[0] in fs;
      NamedOne(fs[0], a);
      NamedOne(fs[0], b);
    }
  }

  lemma NamedOne(m: Member, names: set<string>)
    ensures Named([m], names) == if m.name in names then [m] else []
  {
  }

  lemma NamedTwo(m: Member, n: Member, names: set<string>)
    ensures Named([m, n], names) == (if m.name in names then [m] else []) + (if n.name in names then [n] else [])
  {
    NamedAppend([m], [n], names);
    NamedOne(m, names);
    NamedOne(n, names);
    assert [m] + [n] == [m, n];
  }
}
