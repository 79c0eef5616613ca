/** The contract's length-prefixed arguments: where the fields lie, when a slice is out of range, and
    that parsing inverts building. */
module ContractArgs {
  import opened Core
  import opened Bytes
  import opened Contract

  /** The 32-bit number at an offset. */
  function Word(args: Bytes, at: nat): nat
    requires at + 4 <= |args|
  {
    FromLe(args[at..at + 4])
  }

  /** Both length-prefixed fields lie within the arguments. */
  predicate HeaderFits(args: Bytes) {
    |args| >= 4 && var n := Word(args, 0);
    |args| >= 4 + n + 4 && var m := Word(args, 4 + n);
    |args| >= 4 + n + 4 + m
  }

  lemma FieldIs(args: Bytes, at: nat)
    requires at <= |args|
    ensures Field(args[at..]).Some? <==> |args| >= at + 4 && |args| >= at + 4 + Word(args, at)
    ensures Field(args[at..]).Some? ==>
              var n := Word(args, at); Field(args[at..]).value == (args[at + 4..at + 4 + n], args[at + 4 + n..])
  {
    hide FromLe;
    var s := args[at..];
    if |s| >= 4 {
      assert s[..4] == args[at..at + 4];
      var n := Word(args, at);
      if |s| >= 4 + n { assert s[4..4 + n] == args[at + 4..at + 4 + n] && s[4 + n..] == args[at + 4 + n..]; }
    }
  }

  /** The fields by offset, and exactly when some slice for them is out of range. */
  lemma HeaderIs(args: Bytes)
    ensures ChainAndToken(args).Some? <==> HeaderFits(args)
    ensures HeaderFits(args) ==>
              var n := Word(args, 0);
              var at := 4 + n + 4 + Word(args, 4 + n);
              ChainAndToken(args).value == Parsed(args[4..4 + n], args[4 + n + 4..at], args[at..])
  {
    hide Field, Word;
    assert args[0..] == args;
    FieldIs(args, 0);
    if Field(args).Some? { FieldIs(args, 4 + Word(args, 0)); }
  }

  // ---- Building and parsing ----

  function Prefixed(s: Bytes): Bytes { ToLe(|s|, 4) + s }

  lemma FieldOfPrefixed(s: Bytes, rest: Bytes)
    requires |s| < U32
    ensures Field(Prefixed(s) + rest) == Some((s, rest))
  {
    hide ToLe, FromLe;
    var t := Prefixed(s) + rest;
    WidthsAre();
    LeRoundTrip(|s|, 4);
    assert t[..4] == ToLe(|s|, 4) && t[4..4 + |s|] == s && t[4 + |s|..] == rest;
  }

  lemma PrefixedOfField(args: Bytes)
    requires Field(args).Some?
    ensures var (s, rest) := Field(args).value; |s| < U32 && args == Prefixed(s) + rest
  {
    hide ToLe, FromLe;
    WidthsAre();
    LeRoundTripBack(args[..4]);
    var n := FromLe(args[..4]);
    assert args == args[..4] + args[4..4 + n] + args[4 + n..];
  }

  /** Parsing gives back what the arguments were built from, ... */
  lemma ParseOfBuilt(chain: Bytes, token: Bytes, rest: Bytes)
    requires |chain| < U32 && |token| < U32
    ensures ChainAndToken(Prefixed(chain) + Prefixed(token) + rest) == Some(Parsed(chain, token, rest))
  {
    hide Field, Prefixed;
    assert Prefixed(chain) + Prefixed(token) + rest == Prefixed(chain) + (Prefixed(token) + rest);
    FieldOfPrefixed(chain, Prefixed(token) + rest);
    FieldOfPrefixed(token, rest);
  }

  /** ... and every argument that parses was built so. */
  lemma BuiltOfParse(args: Bytes)
    requires ChainAndToken(args).Some?
    ensures var p := ChainAndToken(args).value;
            |p.chain| < U32 && |p.token| < U32 && args == Prefixed(p.chain) + Prefixed(p.token) + p.rest
  {
    hide Field, Prefixed;
    PrefixedOfField(args);
    PrefixedOfField(Field(args).value.1);
    var p := ChainAndToken(args).value;
    assert Prefixed(p.chain) + (Prefixed(p.token) + p.rest) == Prefixed(p.chain) + Prefixed(p.token) + p.rest;
  }
}
