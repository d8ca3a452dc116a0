/** Setting names: snake_case as libtorrent and the CLI spell them, camelCase as
    the schema does. Case mapping is ASCII; other characters pass unchanged. */
module Names {
  import opened Common

  predicate IsUpper(c: char) {
    'A' <= c <= 'Z'
  }

  predicate IsLower(c: char) {
    'a' <= c <= 'z'
  }

  function Upper(c: char): (u: char)
    ensures IsLower(c) ==> IsUpper(u) && Lower(u) == c
    ensures !IsLower(c) ==> u == c
  {
    if IsLower(c) then (c as int - 32) as char else c
  }

  function Lower(c: char): char {
    if IsUpper(c) then (c as int + 32) as char else c
  }

  /** What is left of the conversion; `upper` says an underscore just passed. */
  function CamelFrom(name: string, upper: bool): string {
    if name == [] then []
    else if name[0] == '_' then CamelFrom(name[1..], true)
    else [if upper then Upper(name[0]) else name[0]] + CamelFrom(name[1..], false)
  }

  function Camel(name: string): string {
    CamelFrom(name, false)
  }

  function Snake(name: string): string {
    if name == [] then []
    else if IsUpper(name[0]) then ['_', Lower(name[0])] + Snake(name[1..])
    else [name[0]] + Snake(name[1..])
  }

  method ToCamel(name: string) returns (out: string)
    ensures out == Camel(name)
  {
    out := [];
    var upper := false;
    for i := 0 to |name|
      invariant out + CamelFrom(name[i..], upper) == Camel(name)
    {
      var c := name[i];
      assert name[i..][1..] == name[i + 1..];
      if c == '_' {
        upper := true;
      } else if upper {
        Assoc(out, [Upper(c)], CamelFrom(name[i + 1..], false));
        out := out + [Upper(c)];
        upper := false;
      } else {
        Assoc(out, [c], CamelFrom(name[i + 1..], false));
        out := out + [c];
      }
    }
  }

  method ToSnake(name: string) returns (out: string)
    ensures out == Snake(name)
  {
    out := [];
    for i := 0 to |name|
      invariant out + Snake(name[i..]) == Snake(name)
    {
      var c := name[i];
      assert name[i..][1..] == name[i + 1..];
      if IsUpper(c) {
        Assoc(out, ['_', Lower(c)], Snake(name[i + 1..]));
        out := out + ['_', Lower(c)];
      } else {
        Assoc(out, [c], Snake(name[i + 1..]));
        out := out + [c];
      }
    }
  }

  // ---- round trips ------------------------------------------------------------

  predicate NoUnderscore(name: string) {
    forall i :: 0 <= i < |name| ==> name[i] != '_'
  }

  predicate PlainAt(name: string, i: nat)
    requires i < |name|
  {
    && !IsUpper(name[i])
    && (name[i] == '_' ==> i + 1 < |name| && IsLower(name[i + 1]))
  }

  /** No capitals, and every underscore leads to a lower-case letter. */
  predicate PlainSnake(name: string) {
    forall i :: 0 <= i < |name| ==> PlainAt(name, i)
  }

  lemma {:induction false} CamelHasNoUnderscore(name: string, upper: bool)
    ensures NoUnderscore(CamelFrom(name, upper))
  {
    if name != [] {
      CamelHasNoUnderscore(name[1..], name[0] == '_');
    }
  }

  lemma {:induction false} CamelKeeps(name: string)
    requires NoUnderscore(name)
    ensures Camel(name) == name
  {
    if name != [] {
      CamelKeeps(name[1..]);
    }
  }

  lemma {:induction false} SnakeIsPlain(name: string)
    requires NoUnderscore(name)
    ensures PlainSnake(Snake(name))
  {
    if name != [] {
      SnakeIsPlain(name[1..]);
      var rest := Snake(name[1..]);
      var front := if IsUpper(name[0]) then ['_', Lower(name[0])] else [name[0]];
      assert Snake(name) == front + rest;
      forall i | 0 <= i < |front + rest|
        ensures PlainAt(front + rest, i)
      {
        if i >= |front| {
          assert PlainAt(rest, i - |front|);
        }
      }
    }
  }

  lemma {:induction false} CamelOfSnake(name: string)
    requires NoUnderscore(name)
    ensures Camel(Snake(name)) == name
  {
    if name != [] {
      CamelOfSnake(name[1..]);
      var s := Snake(name);
      if IsUpper(name[0]) {
        assert s[1..][1..] == Snake(name[1..]);
        assert Upper(Lower(name[0])) == name[0];
        assert CamelFrom(s[1..], true) == [name[0]] + CamelFrom(Snake(name[1..]), false);
      } else {
        assert s[1..] == Snake(name[1..]);
      }
    }
  }

  /** `to_camel(to_snake(x)) == x` exactly for the names without underscores. */
  lemma SchemaNameRoundTrip(name: string)
    ensures Camel(Snake(name)) == name <==> NoUnderscore(name)
  {
    CamelHasNoUnderscore(Snake(name), false);
    if NoUnderscore(name) {
      CamelOfSnake(name);
    }
  }

  lemma PlainTail(name: string)
    requires name != [] && PlainSnake(name)
    ensures PlainSnake(name[1..])
  {
    var rest := name[1..];
    forall i | 0 <= i < |rest|
      ensures PlainAt(rest, i)
    {
      assert PlainAt(name, i + 1);
    }
  }

  lemma {:induction false} SnakeOfCamel(name: string)
    requires PlainSnake(name)
    ensures Snake(Camel(name)) == name
    ensures name != [] && IsLower(name[0]) ==> Snake(CamelFrom(name, true)) == ['_'] + name
    decreases |name|
  {
    if name != [] {
      var rest := name[1..];
      PlainTail(name);
      SnakeOfCamel(rest);
      assert PlainAt(name, 0);
      assert name == [name[0]] + rest;
      if name[0] != '_' {
        assert Camel(name)[1..] == Camel(rest);
        assert CamelFrom(name, true)[1..] == Camel(rest);
      }
    }
  }

  /** `to_snake(to_camel(s)) == s` exactly for plain snake_case. */
  lemma SettingNameRoundTrip(name: string)
    ensures Snake(Camel(name)) == name <==> PlainSnake(name)
  {
    CamelHasNoUnderscore(name, false);
    SnakeIsPlain(Camel(name));
    if PlainSnake(name) {
      SnakeOfCamel(name);
    }
  }

  /** camelCase input is accepted as it is. */
  lemma CamelIdempotent(name: string)
    ensures Camel(Camel(name)) == Camel(name)
  {
    CamelHasNoUnderscore(name, false);
    CamelKeeps(Camel(name));
  }

  // ---- character by character ---------------------------------------------------

  const UPPER_CASE := "ABCDEFGHIJKLMNOPQRSTUVWXYZ"
  const LOWER_CASE := "abcdefghijklmnopqrstuvwxyz"

  lemma Alphabet(i: nat)
    requires i < 26
    ensures |UPPER_CASE| == |LOWER_CASE| == 26
    ensures Upper(LOWER_CASE[i]) == UPPER_CASE[i] && Lower(UPPER_CASE[i]) == LOWER_CASE[i]
    ensures IsUpper(UPPER_CASE[i]) && IsLower(LOWER_CASE[i])
    ensures UPPER_CASE[i] as int == 65 + i && LOWER_CASE[i] as int == 97 + i
  {
  }

  /** Every other character is neither a capital nor a small letter, and is left
      alone. */
  lemma LettersOnly(c: char)
    ensures IsUpper(c) <==> c in UPPER_CASE
    ensures IsLower(c) <==> c in LOWER_CASE
    ensures c !in UPPER_CASE ==> Lower(c) == c
    ensures c !in LOWER_CASE ==> Upper(c) == c
  {
    if IsUpper(c) {
      Alphabet(c as int - 65);
    }
    if IsLower(c) {
      Alphabet(c as int - 97);
    }
    if c in UPPER_CASE {
      var i :| 0 <= i < |UPPER_CASE| && UPPER_CASE[i] == c;
      Alphabet(i);
    }
    if c in LOWER_CASE {
      var i :| 0 <= i < |LOWER_CASE| && LOWER_CASE[i] == c;
      Alphabet(i);
    }
  }

  /** How many characters are not underscores. */
  function Kept(name: string): nat {
    if name == [] then 0 else (if name[0] == '_' then 0 else 1) + Kept(name[1..])
  }

  lemma {:induction false} CamelFromAt(name: string, upper: bool, i: nat)
    requires i < |name| && name[i] != '_'
    ensures Kept(name[..i]) < Kept(name) == |CamelFrom(name, upper)|
    ensures CamelFrom(name, upper)[Kept(name[..i])] ==
      if (if i == 0 then upper else name[i - 1] == '_') then Upper(name[i]) else name[i]
  {
    CamelFromLength(name, upper);
    if i > 0 {
      CamelFromAt(name[1..], name[0] == '_', i - 1);
      assert name[..i][1..] == name[1..][..i - 1];
    }
  }

  lemma {:induction false} CamelFromLength(name: string, upper: bool)
    ensures Kept(name) == |CamelFrom(name, upper)|
  {
    if name != [] {
      CamelFromLength(name[1..], name[0] == '_');
    }
  }

  /** The camelCase name is the name without its underscores, and with a capital
      exactly where one stood just before. */
  lemma CamelAt(name: string, i: nat)
    requires i < |name| && name[i] != '_'
    ensures |Camel(name)| == Kept(name) > Kept(name[..i])
    ensures Camel(name)[Kept(name[..i])] == if i > 0 && name[i - 1] == '_' then Upper(name[i]) else name[i]
  {
    CamelFromAt(name, false, i);
  }

  lemma {:induction false} SnakeJoins(a: string, b: string)
    ensures Snake(a + b) == Snake(a) + Snake(b)
  {
    if a == [] {
      assert a + b == b;
    } else {
      assert (a + b)[1..] == a[1..] + b;
      SnakeJoins(a[1..], b);
    }
  }

  /** snake_case is made character by character: a capital becomes an underscore
      and its small letter, anything else stays. */
  lemma SnakeIsLocal(a: string, c: char, b: string)
    ensures Snake(a + ([c] + b)) == Snake(a) + ((if c in UPPER_CASE then ['_', Lower(c)] else [c]) + Snake(b))
  {
    SnakeJoins(a, [c] + b);
    SnakeJoins([c], b);
    LettersOnly(c);
    assert [c][1..] == [];
    assert Snake([c]) == if c in UPPER_CASE then ['_', Lower(c)] else [c];
  }
}
