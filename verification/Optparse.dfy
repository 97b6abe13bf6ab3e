/**
  A getopt-like parser that permutes its argument vector in place: each call returns one option and
  moves the non-options it had to skip behind it.
*/
module Optparse {
  import opened Collections

  datatype ArgType = NoArgument | Required | Optional

  /** `shortname` is `'\0'` for an option without a short form; an option may lack a long form, too. */
  datatype LongOption = LongOption(longname: Option<string>, shortname: char, argtype: ArgType)

  /** What the error buffer of the parser says. */
  datatype Message = Quiet | Invalid(data: string) | Missing(data: string) | TooMany(data: string)

  /** The result of a call: the end, an option, or an error. */
  datatype Code = End | Found(name: char) | Bad

  /** All a caller learns from a call that returned an option or an error. */
  datatype Event = Event(code: Code, optopt: char, optarg: Option<string>, message: Message)

  // Strings carry no terminator: their end stands for it.

  predicate IsDashDash(arg: string) {
    arg == "--"
  }

  predicate IsShortOption(arg: string) {
    |arg| >= 2 && arg[0] == '-' && arg[1] != '-'
  }

  predicate IsLongOption(arg: string) {
    |arg| >= 3 && arg[0] == '-' && arg[1] == '-'
  }

  // ---------------------------------------------------------------------------------------------
  // Option tables

  function Colons(t: ArgType): string {
    match t
    case NoArgument => ""
    case Required => ":"
    case Optional => "::"
  }

  /** The getopt string of a table of long options. */
  function OptString(table: seq<LongOption>): string {
    if table == [] then "" else Entry(table[0]) + OptString(table[1..])
  }

  function Entry(o: LongOption): string {
    if o.shortname == '\0' then "" else [o.shortname] + Colons(o.argtype)
  }

  /** The first entry of the table with this short name. */
  function LookupShort(table: seq<LongOption>, c: char): Option<ArgType> {
    if table == [] then None
    else if table[0].shortname == c then Some(table[0].argtype)
    else LookupShort(table[1..], c)
  }

  /** How an option string describes the option `c`. */
  method OptArgType(optstring: string, c: char) returns (t: Option<ArgType>)
    ensures t == ArgTypeOf(optstring, c)
  {
    if c == ':' {
      return None;
    }
    var i := 0;
    while i < |optstring| && c != optstring[i]
      invariant i <= |optstring|
      invariant ArgTypeOf(optstring, c) == ArgTypeOf(optstring[i..], c)
    {
      i := i + 1;
    }
    if i == |optstring| {
      return None;
    }
    if i + 1 < |optstring| && optstring[i + 1] == ':' {
      return Some(if i + 2 < |optstring| && optstring[i + 2] == ':' then Optional else Required);
    }
    return Some(NoArgument);
  }

  function ArgTypeOf(optstring: string, c: char): Option<ArgType> {
    if c == ':' || optstring == "" then None
    else if optstring[0] != c then ArgTypeOf(optstring[1..], c)
    else if |optstring| > 1 && optstring[1] == ':' then
      Some(if |optstring| > 2 && optstring[2] == ':' then Optional else Required)
    else Some(NoArgument)
  }

  /** What an option string says: the first place of a character counts, and the colons behind it. */
  lemma {:induction false} ArgTypeMeans(front: string, c: char, rest: string)
    requires c != ':'
    ensures c !in front ==> ArgTypeOf(front, c) == None
    ensures c !in front ==>
      ArgTypeOf(front + [c] + rest, c) ==
        Some(if "::" <= rest then Optional else if ":" <= rest then Required else NoArgument)
  {
    if front == "" {
      var s := front + [c] + rest;
      assert s[0] == c && s[1..] == rest;
      assert "::" <= rest <==> |rest| > 1 && rest[0] == ':' && rest[1] == ':';
      assert ":" <= rest <==> |rest| > 0 && rest[0] == ':';
    } else {
      ArgTypeMeans(front[1..], c, rest);
      assert (front + [c] + rest)[1..] == front[1..] + [c] + rest;
    }
  }

  lemma OneMoreEntry(table: seq<LongOption>, i: nat, front: string)
    requires i < |table|
    ensures (front + Entry(table[i])) + OptString(table[i + 1..]) == front + OptString(table[i..])
  {
    assert table[i..][0] == table[i] && table[i..][1..] == table[i + 1..];
    hide Entry;
  }

  method FromLong(table: seq<LongOption>) returns (optstring: string)
    ensures optstring == OptString(table)
  {
    hide OptString;
    optstring := "";
    assert table[0..] == table;
    for i := 0 to |table|
      invariant optstring + OptString(table[i..]) == OptString(table)
    {
      OneMoreEntry(table, i, optstring);
      var entry := "";
      if table[i].shortname != '\0' {
        entry := [table[i].shortname] + Colons(table[i].argtype);
      }
      optstring := optstring + entry;
    }
    assert OptString(table[|table|..]) == "" by { EmptyTable(); assert table[|table|..] == []; }
  }

  lemma EmptyTable()
    ensures OptString([]) == ""
  {
  }

  lemma NextIsNoColon(table: seq<LongOption>)
    requires forall k :: 0 <= k < |table| ==> table[k].shortname != ':'
    ensures OptString(table) == "" || OptString(table)[0] != ':'
  {
  }

  lemma SkipColon(rest: string, c: char)
    requires c != ':'
    ensures ArgTypeOf(":" + rest, c) == ArgTypeOf(rest, c)
  {
    assert (":" + rest)[1..] == rest;
  }

  lemma ReadEntry(name: char, t: ArgType, rest: string, c: char)
    requires name != ':' && (rest == "" || rest[0] != ':')
    ensures ArgTypeOf([name] + Colons(t) + rest, c) == if name == c then Some(t) else ArgTypeOf(rest, c)
  {
    var s := [name] + Colons(t) + rest;
    assert s[1..] == Colons(t) + rest;
    if c != ':' && name != c && t != NoArgument {
      SkipColon(rest, c);
      SkipColon(":" + rest, c);
      assert Colons(Optional) + rest == ":" + (":" + rest);
    }
    if t == NoArgument {
      assert Colons(t) + rest == rest;
    }
  }

  /** Reading an option back from the generated string gives the first table entry of that name. */
  lemma {:induction false} OptStringRoundTrip(table: seq<LongOption>, c: char)
    requires c != '\0' && forall k :: 0 <= k < |table| ==> table[k].shortname != ':'
    ensures ArgTypeOf(OptString(table), c) == LookupShort(table, c)
  {
    if table != [] {
      OptStringRoundTrip(table[1..], c);
      NextIsNoColon(table[1..]);
      if table[0].shortname != '\0' {
        ReadEntry(table[0].shortname, table[0].argtype, OptString(table[1..]), c);
      } else {
        assert OptString(table) == OptString(table[1..]);
      }
    }
  }

  // ---------------------------------------------------------------------------------------------
  // One option

  /** The parser's settings: `table` is absent when only short options are parsed. */
  datatype Config = Config(optstring: string, table: Option<seq<LongOption>>, permute: bool)

  predicate IsLong(cfg: Config, arg: string) {
    cfg.table.Some? && IsLongOption(arg)
  }

  predicate IsOperand(cfg: Config, arg: string) {
    !IsDashDash(arg) && !IsShortOption(arg) && !IsLong(cfg, arg)
  }

  /** An event, the number of arguments consumed, and the place to go on at within the next one. */
  datatype Move = Move(event: Event, advance: nat, sub: nat)

  function Ok(c: char, optarg: Option<string>): Event {
    Event(Found(c), c, optarg, Quiet)
  }

  /**
    The option at place `sub + 1` of a cluster of short options; `next` is the argument behind the cluster.
    At the end of the cluster stands the character that ends the string, which is no option.
  */
  function ShortMove(optstring: string, arg: string, sub: nat, next: Option<string>): Move
    requires sub < |arg|
  {
    if sub + 1 == |arg| then Move(Event(Bad, '\0', None, Invalid("")), 1, sub)
    else
      var c := arg[sub + 1];
      var rest := arg[sub + 2..];
      match ArgTypeOf(optstring, c)
      case None => Move(Event(Bad, c, None, Invalid([c])), 1, sub)
      case Some(NoArgument) => if rest != "" then Move(Ok(c, None), 0, sub + 1) else Move(Ok(c, None), 1, 0)
      case Some(Required) =>
        if rest != "" then Move(Ok(c, Some(rest)), 1, 0)
        else if next.Some? then Move(Ok(c, next), 2, 0)
        else Move(Event(Bad, c, None, Missing([c])), 1, 0)
      case Some(Optional) => Move(Ok(c, if rest != "" then Some(rest) else None), 1, 0)
  }

  /** Where the value of a long option starts, or the length of the option if it has none. */
  function NameLength(option: string): (n: nat)
    ensures n <= |option|
  {
    if option == "" || option[0] == '=' then 0 else 1 + NameLength(option[1..])
  }

  /** The name of a long option, up to the equals sign. */
  function NameOf(option: string): string {
    option[..NameLength(option)]
  }

  function ValueOf(option: string): Option<string> {
    var n := NameLength(option);
    if n < |option| then Some(option[n + 1..]) else None
  }

  function LookupLong(table: seq<LongOption>, name: string): Option<LongOption> {
    if table == [] then None
    else if table[0].longname == Some(name) then Some(table[0])
    else LookupLong(table[1..], name)
  }

  function LongMove(table: seq<LongOption>, arg: string, sub: nat, next: Option<string>): Move
    requires |arg| >= 2
  {
    var option := arg[2..];
    match LookupLong(table, NameOf(option))
    case None => Move(Event(Bad, '\0', None, Invalid(option)), 1, sub)
    case Some(o) =>
      var value := ValueOf(option);
      if o.argtype == NoArgument && value.Some? then
        Move(Event(Bad, o.shortname, None, TooMany(NameOf(option))), 1, sub)
      else if value.Some? || o.argtype != Required then Move(Ok(o.shortname, value), 1, sub)
      else if next.Some? then Move(Ok(o.shortname, next), 2, sub)
      else Move(Event(Bad, o.shortname, None, Missing(NameOf(option))), 1, sub)
  }

  function At(args: seq<string>, i: nat): Option<string> {
    if i < |args| then Some(args[i]) else None
  }

  predicate IsOption(cfg: Config, arg: string) {
    IsShortOption(arg) || IsLong(cfg, arg)
  }

  /** The move the parser makes when `args` begins with an option. */
  function OptionMove(cfg: Config, args: seq<string>, sub: nat): (m: Move)
    requires args != [] && IsOption(cfg, args[0]) && (IsShortOption(args[0]) ==> sub < |args[0]|)
    ensures m.advance <= |args|
    ensures m.advance == 0 ==> IsShortOption(args[0]) && m.sub == sub + 1 < |args[0]| - 1
    ensures m.event.code != End
  {
    if IsShortOption(args[0]) then ShortMove(cfg.optstring, args[0], sub, At(args, 1))
    else LongMove(cfg.table.value, args[0], sub, At(args, 1))
  }

  /**
    No call reads behind the end of an argument: the place kept inside a cluster, if any, exists in the next
    cluster that will be parsed. An error ends the parse before that.
  */
  predicate Ready(cfg: Config, args: seq<string>, sub: nat)
    decreases |args|
  {
    if sub == 0 || args == [] || IsDashDash(args[0]) then true
    else if IsShortOption(args[0]) then sub < |args[0]|
    else if IsLong(cfg, args[0]) then
      var m := LongMove(cfg.table.value, args[0], sub, At(args, 1));
      m.event.code == Bad || Ready(cfg, args[m.advance..], sub)
    else !cfg.permute || Ready(cfg, args[1..], sub)
  }

  // ---------------------------------------------------------------------------------------------
  // A whole argument list

  /**
    Either all options with the arguments they used up, whether `--` ended them, and the operands left;
    or everything up to and including the first error.
  */
  datatype Outcome =
    | Parsed(events: seq<Event>, used: seq<string>, dashed: bool, operands: seq<string>)
    | Rejected(events: seq<Event>)

  /** What stands behind the options once they have been moved to the front. */
  function Tail(o: Outcome): seq<string>
    requires o.Parsed?
  {
    (if o.dashed then ["--"] else []) + o.operands
  }

  function Prepend(event: Event, used: seq<string>, o: Outcome): Outcome {
    match o
    case Parsed(events, used', dashed, operands) => Parsed([event] + events, used + used', dashed, operands)
    case Rejected(events) => Rejected([event] + events)
  }

  function Skip(arg: string, o: Outcome): Outcome {
    match o
    case Parsed(events, used, dashed, operands) => Parsed(events, used, dashed, [arg] + operands)
    case Rejected(events) => o
  }

  /** Parses from left to right without moving anything. */
  function Scan(cfg: Config, args: seq<string>, sub: nat): Outcome
    requires Ready(cfg, args, sub)
    decreases |args|, if args == [] then 0 else |args[0]| - sub
  {
    if args == [] then Parsed([], [], false, [])
    else if IsDashDash(args[0]) then Parsed([], [], true, args[1..])
    else if IsOption(cfg, args[0]) then
      var m := OptionMove(cfg, args, sub);
      if m.event.code == Bad then Rejected([m.event])
      else Prepend(m.event, args[..m.advance], Scan(cfg, args[m.advance..], m.sub))
    else if cfg.permute then Skip(args[0], Scan(cfg, args[1..], sub))
    else Parsed([], [], false, args)
  }

  // ---------------------------------------------------------------------------------------------
  // What a parse does to the list

  /** `args` is an interleaving of `a` and `b`: both keep their order, and nothing is lost or added. */
  predicate Interleaves(args: seq<string>, a: seq<string>, b: seq<string>) {
    if args == [] then a == [] && b == []
    else
      || (a != [] && a[0] == args[0] && Interleaves(args[1..], a[1..], b))
      || (b != [] && b[0] == args[0] && Interleaves(args[1..], a, b[1..]))
  }

  lemma {:induction false} OnlySecond(args: seq<string>)
    ensures Interleaves(args, [], args)
  {
    if args != [] {
      OnlySecond(args[1..]);
    }
  }

  /** Arguments taken from the front go to the front of the first part. */
  lemma {:induction false} FrontToFirst(front: seq<string>, args: seq<string>, a: seq<string>, b: seq<string>)
    requires Interleaves(args, a, b)
    ensures Interleaves(front + args, front + a, b)
  {
    if front == [] {
      assert front + args == args && front + a == a;
    } else {
      FrontToFirst(front[1..], args, a, b);
      assert (front + args)[1..] == front[1..] + args;
      assert (front + a)[1..] == front[1..] + a;
    }
  }

  lemma OneToSecond(arg: string, args: seq<string>, a: seq<string>, b: seq<string>)
    requires Interleaves(args, a, b)
    ensures Interleaves([arg] + args, a, [arg] + b)
  {
    assert ([arg] + args)[1..] == args && ([arg] + b)[1..] == b;
  }

  /** The options with their arguments, and `--` if there is one. */
  function Options(o: Outcome): seq<string>
    requires o.Parsed?
  {
    o.used + if o.dashed then ["--"] else []
  }

  /** A parse splits the list into the options with their arguments and the operands, each in its old order. */
  lemma {:induction false} ScanInterleaves(cfg: Config, args: seq<string>, sub: nat)
    requires Ready(cfg, args, sub) && Scan(cfg, args, sub).Parsed?
    ensures Interleaves(args, Options(Scan(cfg, args, sub)), Scan(cfg, args, sub).operands)
    decreases |args|, if args == [] then 0 else |args[0]| - sub
  {
    if args == [] {
    } else if IsDashDash(args[0]) {
      OnlySecond(args[1..]);
      FrontToFirst(["--"], args[1..], [], args[1..]);
      assert ["--"] + args[1..] == args && ["--"] + [] == [] + ["--"] == ["--"];
    } else if IsOption(cfg, args[0]) {
      var m := OptionMove(cfg, args, sub);
      OptionInFront(cfg, args, m, sub);
      ScanInterleaves(cfg, args[m.advance..], m.sub);
      var o := Scan(cfg, args[m.advance..], m.sub);
      hide Scan, Ready, OptionMove, Interleaves;
      FrontToFirst(args[..m.advance], args[m.advance..], Options(o), o.operands);
      assert args[..m.advance] + args[m.advance..] == args;
      assert Options(Scan(cfg, args, sub)) == args[..m.advance] + Options(o);
    } else if cfg.permute {
      ScanInterleaves(cfg, args[1..], sub);
      var o := Scan(cfg, args[1..], sub);
      OneToSecond(args[0], args[1..], Options(o), o.operands);
      assert [args[0]] + args[1..] == args;
    } else {
      OnlySecond(args);
      assert [] + [] == Options(Scan(cfg, args, sub));
    }
  }

  /** Only what the options use up takes part in their moves. */
  lemma OptionMoveLocal(cfg: Config, a: seq<string>, b: seq<string>, sub: nat)
    requires a != [] && b != [] && a[0] == b[0] && IsOption(cfg, a[0]) && (IsShortOption(a[0]) ==> sub < |a[0]|)
    requires OptionMove(cfg, a, sub).event.code != Bad
    requires OptionMove(cfg, a, sub).advance == 2 ==> |b| >= 2 && a[1] == b[1]
    ensures OptionMove(cfg.(permute := false), b, sub) == OptionMove(cfg, a, sub)
  {
  }

  /** An option in front is the first thing used. */
  lemma {:induction false} FirstUsed(cfg: Config, args: seq<string>, sub: nat)
    requires Ready(cfg, args, sub) && args != [] && IsOption(cfg, args[0]) && Scan(cfg, args, sub).Parsed?
    ensures Scan(cfg, args, sub).used != [] && Scan(cfg, args, sub).used[0] == args[0]
    decreases if args == [] then 0 else |args[0]| - sub
  {
    var m := OptionMove(cfg, args, sub);
    if m.advance == 0 {
      assert args[0..] == args;
      FirstUsed(cfg, args, m.sub);
    }
  }

  /** What may stand behind the options without being taken for one. */
  predicate Stops(cfg: Config, x: seq<string>) {
    x == [] || IsDashDash(x[0]) || IsOperand(cfg, x[0])
  }

  function Stopped(x: seq<string>, o: Outcome): Outcome
    requires o.Parsed?
  {
    if x != [] && IsDashDash(x[0]) then o.(dashed := true, operands := x[1..]) else o.(dashed := false, operands := x)
  }

  /** One option in front of a list that already parses as wanted. */
  lemma OptionInFront(cfg: Config, list: seq<string>, m: Move, sub: nat)
    requires list != [] && IsOption(cfg, list[0]) && (IsShortOption(list[0]) ==> sub < |list[0]|)
    requires Ready(cfg, list, sub) && m == OptionMove(cfg, list, sub) && m.event.code != Bad
    ensures Ready(cfg, list[m.advance..], m.sub)
    ensures Scan(cfg, list, sub) == Prepend(m.event, list[..m.advance], Scan(cfg, list[m.advance..], m.sub))
  {
    hide ArgTypeOf, LookupLong, NameLength;
  }

  lemma OptionIsReady(cfg: Config, list: seq<string>, sub: nat)
    requires list != [] && IsOption(cfg, list[0])
    ensures IsShortOption(list[0]) ==> (Ready(cfg, list, sub) <==> sub < |list[0]|)
    ensures !IsShortOption(list[0]) ==> var m := OptionMove(cfg, list, sub);
      m.advance <= |list| && (m.event.code != Bad && Ready(cfg, list[m.advance..], m.sub) ==> Ready(cfg, list, sub))
  {
  }

  /** The options found give the same events when they stand alone in front of `x` and nothing is permuted. */
  lemma {:induction false} UsedParsesAlone(cfg: Config, args: seq<string>, sub: nat, x: seq<string>)
    requires cfg.permute && Ready(cfg, args, sub) && Scan(cfg, args, sub).Parsed? && Stops(cfg, x)
    ensures var o := Scan(cfg, args, sub);
      var strict := cfg.(permute := false);
      Ready(strict, o.used + x, sub) && Scan(strict, o.used + x, sub) == Stopped(x, o)
    decreases |args|, if args == [] then 0 else |args[0]| - sub
  {
    var o := Scan(cfg, args, sub);
    if args == [] || IsDashDash(args[0]) {
      assert o.used + x == x;
    } else if IsOption(cfg, args[0]) {
      var m := OptionMove(cfg, args, sub);
      OptionInFront(cfg, args, m, sub);
      UsedParsesAlone(cfg, args[m.advance..], m.sub, x);
      hide Scan, Ready, OptionMove;
      UsedOption(cfg, args, sub, x);
    } else {
      UsedParsesAlone(cfg, args[1..], sub, x);
    }
  }

  lemma FrontOf(front: seq<string>, middle: seq<string>, back: seq<string>)
    ensures ((front + middle) + back)[|front|..] == middle + back
    ensures ((front + middle) + back)[..|front|] == front
    ensures forall k :: 0 <= k < |front| ==> ((front + middle) + back)[k] == front[k]
  {
  }

  lemma UsedOption(cfg: Config, args: seq<string>, sub: nat, x: seq<string>)
    requires cfg.permute && args != [] && IsOption(cfg, args[0])
    requires Ready(cfg, args, sub) && Scan(cfg, args, sub).Parsed?
    requires var m := OptionMove(cfg, args, sub);
      m.event.code != Bad && Ready(cfg, args[m.advance..], m.sub) &&
      var rest := Scan(cfg, args[m.advance..], m.sub);
      var strict := cfg.(permute := false);
      rest.Parsed? && Ready(strict, rest.used + x, m.sub) && Scan(strict, rest.used + x, m.sub) == Stopped(x, rest)
    ensures var o := Scan(cfg, args, sub);
      var strict := cfg.(permute := false);
      Ready(strict, o.used + x, sub) && Scan(strict, o.used + x, sub) == Stopped(x, o)
  {
    OptionIsReady(cfg, args, sub);
    var m := OptionMove(cfg, args, sub);
    hide Scan, Ready, OptionMove, IsShortOption, IsLongOption, IsDashDash;
    var rest := Scan(cfg, args[m.advance..], m.sub);
    var strict := cfg.(permute := false);
    OptionInFront(cfg, args, m, sub);
    FirstUsed(cfg, args, sub);
    var o := Scan(cfg, args, sub);
    var list := o.used + x;
    FrontOf(args[..m.advance], rest.used, x);
    assert list[0] == args[0];
    OptionMoveLocal(cfg, args, list, sub);
    OptionIsReady(strict, list, sub);
    OptionInFront(strict, list, m, sub);
  }

  /** Unless `--` cuts the parse short, all operands it leaves are operands by their looks. */
  lemma {:induction false} OperandsLookLikeOperands(cfg: Config, args: seq<string>, sub: nat)
    requires cfg.permute && Ready(cfg, args, sub) && Scan(cfg, args, sub).Parsed? && !Scan(cfg, args, sub).dashed
    ensures forall k :: 0 <= k < |Scan(cfg, args, sub).operands| ==> IsOperand(cfg, Scan(cfg, args, sub).operands[k])
    decreases |args|, if args == [] then 0 else |args[0]| - sub
  {
    if args == [] {
    } else if IsOption(cfg, args[0]) {
      var m := OptionMove(cfg, args, sub);
      OperandsLookLikeOperands(cfg, args[m.advance..], m.sub);
    } else {
      OperandsLookLikeOperands(cfg, args[1..], sub);
    }
  }

  /**
    Permuting makes no difference to the result: putting the options with their arguments first, in
    their old order, and then parsing without permutation gives the same events and the same operands.
  */
  lemma PartitionParsesAlike(cfg: Config, args: seq<string>)
    requires cfg.permute && Scan(cfg, args, 0).Parsed?
    ensures var o := Scan(cfg, args, 0); Scan(cfg.(permute := false), o.used + Tail(o), 0) == o
  {
    var o := Scan(cfg, args, 0);
    if !o.dashed {
      OperandsLookLikeOperands(cfg, args, 0);
    }
    UsedParsesAlone(cfg, args, 0, Tail(o));
  }

  // ---------------------------------------------------------------------------------------------
  // The parser

  /**
    What one call did: it read from the arguments `args` at place `sub`, returned `code` and `event`,
    moved the arguments `used` to the front and left `args'` at place `sub'`.
  */
  ghost predicate CallDone(cfg: Config, args: seq<string>, sub: nat, code: Code, event: Event,
                           used: seq<string>, args': seq<string>, sub': nat)
    requires Ready(cfg, args, sub)
  {
    match code
    case End =>
      Scan(cfg, args, sub) == Parsed([], [], used == ["--"], args') && (used == [] || used == ["--"])
    case Found(_) =>
      && event.code == code
      && Ready(cfg, args', sub')
      && Scan(cfg, args, sub) == Prepend(event, used, Scan(cfg, args', sub'))
    case Bad =>
      event.code == Bad && Scan(cfg, args, sub) == Rejected([event])
  }

  lemma OperandInFront(cfg: Config, a: string, args: seq<string>, sub: nat)
    requires IsOperand(cfg, a) && cfg.permute
    ensures Ready(cfg, [a] + args, sub) <==> Ready(cfg, args, sub)
    ensures Ready(cfg, args, sub) ==> Scan(cfg, [a] + args, sub) == Skip(a, Scan(cfg, args, sub))
  {
    assert ([a] + args)[1..] == args;
  }

  /** A call that skips an operand does what the call behind the operand did. */
  lemma CallSkips(cfg: Config, a: string, args: seq<string>, sub: nat, code: Code, event: Event,
                  used: seq<string>, args': seq<string>, sub': nat)
    requires IsOperand(cfg, a) && cfg.permute
    requires Ready(cfg, args, sub) && CallDone(cfg, args, sub, code, event, used, args', sub')
    ensures Ready(cfg, [a] + args, sub) && CallDone(cfg, [a] + args, sub, code, event, used, [a] + args', sub')
  {
    OperandInFront(cfg, a, args, sub);
    OperandInFront(cfg, a, args', sub');
  }

  lemma CallMoves(cfg: Config, args: seq<string>, sub: nat, m: Move)
    requires args != [] && IsOption(cfg, args[0]) && Ready(cfg, args, sub)
    requires IsShortOption(args[0]) ==> sub < |args[0]|
    requires m == OptionMove(cfg, args, sub)
    ensures CallDone(cfg, args, sub, m.event.code, m.event, args[..m.advance], args[m.advance..], m.sub)
  {
    if m.event.code != Bad {
      OptionInFront(cfg, args, m, sub);
    }
  }

  lemma CallEnds(cfg: Config, args: seq<string>, sub: nat, event: Event)
    requires Ready(cfg, args, sub)
    ensures args == [] || (IsOperand(cfg, args[0]) && !cfg.permute) ==>
      CallDone(cfg, args, sub, End, event, [], args, sub)
    ensures args != [] && IsDashDash(args[0]) ==> CallDone(cfg, args, sub, End, event, ["--"], args[1..], sub)
  {
  }

  lemma ReadyOption(cfg: Config, args: seq<string>, sub: nat)
    requires Ready(cfg, args, sub) && args != []
    ensures IsShortOption(args[0]) ==> sub < |args[0]|
    ensures IsOperand(cfg, args[0]) && cfg.permute ==> Ready(cfg, args[1..], sub)
  {
    if IsOperand(cfg, args[0]) && cfg.permute {
      assert args == [args[0]] + args[1..];
      OperandInFront(cfg, args[0], args[1..], sub);
    }
  }

  lemma MoveOfKind(cfg: Config, args: seq<string>, sub: nat)
    requires Ready(cfg, args, sub) && args != []
    ensures IsShortOption(args[0]) ==>
      sub < |args[0]| && OptionMove(cfg, args, sub) == ShortMove(cfg.optstring, args[0], sub, At(args, 1))
    ensures !IsShortOption(args[0]) && IsLong(cfg, args[0]) ==>
      |args[0]| >= 2 && OptionMove(cfg, args, sub) == LongMove(cfg.table.value, args[0], sub, At(args, 1))
  {
    hide ShortMove, LongMove;
  }

  /** The list with the element at `i` moved behind the elements up to `j`. */
  function Rotated(s: seq<string>, i: nat, j: nat): (r: seq<string>)
    requires i < j <= |s|
    ensures |r| == |s|
  {
    s[..i] + s[i + 1..j] + [s[i]] + s[j..]
  }

  lemma RotatedAt(s: seq<string>, i: nat, j: nat, k: nat)
    requires i < j <= |s| && k < |s|
    ensures Rotated(s, i, j)[k] == if k < i || k >= j then s[k] else if k == j - 1 then s[i] else s[k + 1]
  {
  }

  lemma RotatedKeeps(s: seq<string>, i: nat, j: nat)
    requires i < j <= |s|
    ensures multiset(Rotated(s, i, j)) == multiset(s)
    ensures Rotated(s, i, j)[..i] == s[..i]
    ensures Rotated(s, i, j)[i..j - 1] == s[i + 1..j]
    ensures Rotated(s, i, j)[j - 1..] == [s[i]] + s[j..]
  {
    var a, x, b, c := s[..i], s[i], s[i + 1..j], s[j..];
    assert s == ((a + [x]) + b) + c;
    RotatedParts(a, x, b, c);
    RotatedSlices(a, b, [x] + c);
    assert Rotated(s, i, j) == (a + b) + ([x] + c) == ((a + b) + [x]) + c;
  }

  lemma RotatedSlices(a: seq<string>, b: seq<string>, c: seq<string>)
    ensures ((a + b) + c)[..|a|] == a
    ensures ((a + b) + c)[|a|..|a| + |b|] == b
    ensures ((a + b) + c)[|a| + |b|..] == c
  {
  }

  lemma RotatedParts(a: seq<string>, x: string, b: seq<string>, c: seq<string>)
    ensures multiset(((a + b) + [x]) + c) == multiset(((a + [x]) + b) + c)
  {
  }

  /** A stretch without an equals sign belongs to the name, and an equals sign behind it ends the name. */
  lemma {:induction false} NameHasNoEquals(option: string, i: nat)
    requires i <= |option| && '=' !in option[..i]
    ensures i <= NameLength(option)
    ensures i == |option| || option[i] == '=' ==> NameLength(option) == i
  {
    if i > 0 {
      assert option[0] == option[..i][0];
      assert option[1..][..i - 1] == option[..i][1..];
      NameHasNoEquals(option[1..], i - 1);
    }
  }

  class Parser {
    const argv: array<string>
    const permute: bool
    var optind: nat
    var optopt: char
    var optarg: Option<string>
    var errmsg: Message
    var subopt: nat

    ghost predicate Valid()
      reads this
    {
      optind <= argv.Length
    }

    /** The arguments not parsed yet. */
    ghost function Rest(): seq<string>
      requires Valid()
      reads this, argv
    {
      argv[optind..]
    }

    function Last(code: Code): Event
      reads this
    {
      Event(code, optopt, optarg, errmsg)
    }

    /** The first argument is the name of the program. */
    constructor (argv: array<string>)
      requires argv.Length >= 1
      ensures Valid() && this.argv == argv && permute && optind == 1 && subopt == 0
    {
      this.argv := argv;
      permute := true;
      optind := 1;
      optopt := '\0';
      optarg := None;
      errmsg := Quiet;
      subopt := 0;
    }

    /** Moves the argument at `index` behind the arguments up to `optind`. */
    method Permute(index: nat)
      requires Valid() && index < optind
      modifies argv
      ensures argv[..] == old(Rotated(argv[..], index, optind))
    {
      hide Rotated;
      ghost var list := argv[..];
      var nonoption := argv[index];
      var i := index;
      while i < optind - 1
        invariant index <= i <= optind - 1
        invariant forall k :: 0 <= k < argv.Length && !(index <= k < i) ==> argv[k] == list[k]
        invariant forall k :: index <= k < i ==> argv[k] == list[k + 1]
      {
        argv[i] := argv[i + 1];
        i := i + 1;
      }
      argv[optind - 1] := nonoption;
      forall k | 0 <= k < argv.Length
        ensures argv[k] == Rotated(list, index, optind)[k]
      {
        RotatedAt(list, index, optind, k);
      }
    }

    /** Undoes the step over the operand at `index` once the arguments behind it have been parsed. */
    method PutBack(index: nat)
      requires Valid() && index < optind
      modifies this`optind, argv
      ensures Valid() && optind == old(optind) - 1
      ensures argv[..index] == old(argv[..index])
      ensures argv[index..optind] == old(argv[index + 1..optind])
      ensures Rest() == [old(argv[index])] + old(Rest())
      ensures multiset(argv[..]) == old(multiset(argv[..]))
    {
      hide Rotated;
      ghost var list, top := argv[..], optind;
      Permute(index);
      optind := optind - 1;
      ghost var now := argv[..];
      assert now == Rotated(list, index, top);
      RotatedKeeps(list, index, top);
      assert argv[..index] == now[..index] && argv[index..optind] == now[index..top - 1] && Rest() == now[top - 1..];
    }

    /** The part of `optparse` that looks at one option of a cluster. */
    method ShortOption(optstring: string) returns (code: Code)
      requires Valid() && optind < argv.Length && IsShortOption(argv[optind]) && subopt < |argv[optind]|
      modifies this`optind, this`optopt, this`optarg, this`errmsg, this`subopt
      ensures Valid()
      ensures var m := old(ShortMove(optstring, argv[optind], subopt, At(Rest(), 1)));
        Last(code) == m.event && optind == old(optind) + m.advance && subopt == m.sub
    {
      var option := argv[optind][subopt + 1..];
      errmsg := Quiet;
      optarg := None;
      if |option| == 0 {
        // The character read is the one that ends the string; no option string contains it.
        optopt := '\0';
        optind := optind + 1;
        errmsg := Invalid("");
        return Bad;
      }
      optopt := option[0];
      var t := OptArgType(optstring, option[0]);
      var next := if optind + 1 < argv.Length then Some(argv[optind + 1]) else None;
      assert option[1..] == argv[optind][subopt + 2..];
      match t {
        case None =>
          optind := optind + 1;
          errmsg := Invalid([option[0]]);
          return Bad;
        case Some(NoArgument) =>
          if |option| > 1 {
            subopt := subopt + 1;
          } else {
            subopt := 0;
            optind := optind + 1;
          }
          return Found(option[0]);
        case Some(Required) =>
          subopt := 0;
          optind := optind + 1;
          if |option| > 1 {
            optarg := Some(option[1..]);
          } else if next.Some? {
            optarg := next;
            optind := optind + 1;
          } else {
            errmsg := Missing([option[0]]);
            return Bad;
          }
          return Found(option[0]);
        case Some(Optional) =>
          subopt := 0;
          optind := optind + 1;
          optarg := if |option| > 1 then Some(option[1..]) else None;
          return Found(option[0]);
      }
    }

    /** Short options only. An operand is skipped by parsing behind it and then moving it back. */
    method Optparse(optstring: string) returns (code: Code)
      requires Valid() && Ready(Config(optstring, None, permute), Rest(), subopt)
      modifies this`optind, this`optopt, this`optarg, this`errmsg, this`subopt, argv
      ensures Valid() && old(optind) <= optind
      ensures argv[..old(optind)] == old(argv[..optind])
      ensures multiset(argv[..]) == old(multiset(argv[..]))
      ensures CallDone(Config(optstring, None, permute), old(Rest()), old(subopt),
                       code, Last(code), argv[old(optind)..optind], Rest(), subopt)
      ensures old(optind < argv.Length && IsShortOption(argv[optind])) ==>
        var m := old(ShortMove(optstring, argv[optind], subopt, At(Rest(), 1)));
        argv[..] == old(argv[..]) && code == m.event.code && Last(code) == m.event &&
        optind == old(optind) + m.advance && subopt == m.sub
      decreases argv.Length - optind
    {
      hide Ready, CallDone, Scan, ShortMove, IsLongOption, Rotated;
      ghost var cfg, args := Config(optstring, None, permute), Rest();
      if optind >= argv.Length {
        CallEnds(cfg, args, subopt, Last(End));
        assert args == [] && argv[optind..optind] == [];
        return End;
      }
      var option := argv[optind];
      ReadyOption(cfg, args, subopt);
      if IsDashDash(option) {
        optind := optind + 1;
        code := End;
        assert argv[optind - 1..optind] == ["--"] && Rest() == args[1..];
        CallEnds(cfg, args, subopt, Last(End));
      } else if !IsShortOption(option) {
        if permute {
          var index := optind;
          optind := optind + 1;
          ghost var sub := subopt;
          assert args == [option] + Rest();
          code := Optparse(optstring);
          assert argv[index] == option by { assert argv[..index + 1][index] == option; }
          CallSkips(cfg, option, args[1..], sub, code, Last(code), argv[index + 1..optind], Rest(), subopt);
          PutBack(index);
        } else {
          code := End;
          assert argv[optind..optind] == [];
          CallEnds(cfg, args, subopt, Last(End));
        }
      } else {
        ghost var m := OptionMove(cfg, args, subopt);
        CallMoves(cfg, args, subopt, m);
        ghost var from := optind;
        code := ShortOption(optstring);
        assert argv[from..optind] == args[..m.advance] && Rest() == args[m.advance..];
      }
    }

    method LongOptionMatches(longname: Option<string>, option: string) returns (b: bool)
      ensures b <==> longname == Some(NameOf(option))
    {
      if longname == None {
        return false;
      }
      var n := longname.value;
      var i := 0;
      while i < |option| && i < |n| && option[i] != '='
        invariant i <= |option| && i <= |n| && option[..i] == n[..i] && '=' !in option[..i]
      {
        if option[i] != n[i] {
          NameHasNoEquals(option, i + 1);
          assert NameOf(option)[i] == option[i];
          return false;
        }
        i := i + 1;
      }
      NameHasNoEquals(option, i);
      if i < |option| && option[i] != '=' {
        NameHasNoEquals(option, i + 1);
        assert |NameOf(option)| > |n|;
        return false;
      }
      assert NameOf(option) == n[..i];
      assert i == |n| ==> n[..i] == n;
      return i == |n|;
    }

    method LongOptionArg(option: string) returns (value: Option<string>)
      ensures value == ValueOf(option)
    {
      var i := 0;
      while i < |option| && option[i] != '='
        invariant i <= |option| && '=' !in option[..i]
      {
        i := i + 1;
      }
      NameHasNoEquals(option, i);
      return if i < |option| then Some(option[i + 1..]) else None;
    }

    /** The part of `optparse_long` that parses one long option. */
    method LongOptionStep(table: seq<LongOption>) returns (code: Code)
      requires Valid() && optind < argv.Length && IsLongOption(argv[optind])
      modifies this`optind, this`optopt, this`optarg, this`errmsg
      ensures Valid()
      ensures var m := old(LongMove(table, argv[optind], subopt, At(Rest(), 1)));
        Last(code) == m.event && optind == old(optind) + m.advance && subopt == m.sub
    {
      hide NameLength;
      var option := argv[optind][2..];
      errmsg := Quiet;
      optopt := '\0';
      optarg := None;
      optind := optind + 1;
      for i := 0 to |table|
        invariant LookupLong(table, NameOf(option)) == LookupLong(table[i..], NameOf(option))
        invariant optind == old(optind) + 1 && Last(Bad) == Event(Bad, '\0', None, Quiet)
      {
        assert table[i..][0] == table[i] && table[i..][1..] == table[i + 1..];
        var matches := LongOptionMatches(table[i].longname, option);
        if matches {
          optopt := table[i].shortname;
          var value := LongOptionArg(option);
          if table[i].argtype == NoArgument && value.Some? {
            errmsg := TooMany(table[i].longname.value);
            return Bad;
          }
          if value.Some? {
            optarg := value;
          } else if table[i].argtype == Required {
            if optind < argv.Length {
              optarg := Some(argv[optind]);
              optind := optind + 1;
            } else {
              errmsg := Missing(table[i].longname.value);
              return Bad;
            }
          }
          return Found(optopt);
        }
      }
      errmsg := Invalid(option);
      return Bad;
    }

    /** `optparse_long_fallback`: a cluster of short options, described by the table of long ones. */
    method Fallback(table: seq<LongOption>) returns (code: Code)
      requires Valid() && Ready(Config(OptString(table), Some(table), permute), Rest(), subopt)
      requires optind < argv.Length && IsShortOption(argv[optind])
      modifies this`optind, this`optopt, this`optarg, this`errmsg, this`subopt, argv
      ensures Valid() && old(optind) <= optind && argv[..] == old(argv[..])
      ensures CallDone(Config(OptString(table), Some(table), permute), old(Rest()), old(subopt),
                       code, Last(code), argv[old(optind)..optind], Rest(), subopt)
    {
      hide Ready, CallDone, Scan, OptionMove, ShortMove, LongMove, OptString, IsShortOption, IsLongOption;
      ghost var cfg, args, from := Config(OptString(table), Some(table), permute), Rest(), optind;
      MoveOfKind(cfg, args, subopt);
      ghost var m := OptionMove(cfg, args, subopt);
      CallMoves(cfg, args, subopt, m);
      var optstring := FromLong(table);
      ShortIsReady(Config(optstring, None, permute), args, subopt);
      code := Optparse(optstring);
      assert argv[from..optind] == args[..m.advance] && Rest() == args[m.advance..];
    }

    method OneLongOption(table: seq<LongOption>) returns (code: Code)
      requires Valid() && Ready(Config(OptString(table), Some(table), permute), Rest(), subopt)
      requires optind < argv.Length && !IsShortOption(argv[optind]) && IsLongOption(argv[optind])
      modifies this`optind, this`optopt, this`optarg, this`errmsg
      ensures Valid() && old(optind) <= optind
      ensures CallDone(Config(OptString(table), Some(table), permute), old(Rest()), old(subopt),
                       code, Last(code), argv[old(optind)..optind], Rest(), subopt)
    {
      hide Ready, CallDone, Scan, OptionMove, ShortMove, LongMove, OptString, IsShortOption, IsLongOption;
      ghost var cfg, args, from := Config(OptString(table), Some(table), permute), Rest(), optind;
      MoveOfKind(cfg, args, subopt);
      ghost var m := OptionMove(cfg, args, subopt);
      CallMoves(cfg, args, subopt, m);
      code := LongOptionStep(table);
      assert argv[from..optind] == args[..m.advance] && Rest() == args[m.advance..];
    }

    /** Short and long options. */
    method OptparseLong(table: seq<LongOption>) returns (code: Code)
      requires Valid() && Ready(Config(OptString(table), Some(table), permute), Rest(), subopt)
      modifies this`optind, this`optopt, this`optarg, this`errmsg, this`subopt, argv
      ensures Valid() && old(optind) <= optind
      ensures argv[..old(optind)] == old(argv[..optind])
      ensures multiset(argv[..]) == old(multiset(argv[..]))
      ensures CallDone(Config(OptString(table), Some(table), permute), old(Rest()), old(subopt),
                       code, Last(code), argv[old(optind)..optind], Rest(), subopt)
      decreases argv.Length - optind
    {
      hide Ready, CallDone, Scan, OptionMove, ShortMove, LongMove, OptString, IsShortOption, IsLongOption, Rotated;
      ghost var cfg, args := Config(OptString(table), Some(table), permute), Rest();
      if optind >= argv.Length {
        CallEnds(cfg, args, subopt, Last(End));
        assert args == [] && argv[optind..optind] == [];
        return End;
      }
      var option := argv[optind];
      ReadyOption(cfg, args, subopt);
      if IsDashDash(option) {
        optind := optind + 1;
        code := End;
        assert argv[optind - 1..optind] == ["--"] && Rest() == args[1..];
        CallEnds(cfg, args, subopt, Last(End));
      } else if IsShortOption(option) {
        code := Fallback(table);
      } else if !IsLongOption(option) {
        if permute {
          var index := optind;
          optind := optind + 1;
          ghost var sub := subopt;
          assert args == [option] + Rest();
          code := OptparseLong(table);
          assert argv[index] == option by { assert argv[..index + 1][index] == option; }
          CallSkips(cfg, option, args[1..], sub, code, Last(code), argv[index + 1..optind], Rest(), subopt);
          PutBack(index);
        } else {
          code := End;
          assert argv[optind..optind] == [];
          CallEnds(cfg, args, subopt, Last(End));
        }
      } else {
        code := OneLongOption(table);
      }
    }

    /** The next operand, once the options have been parsed. */
    method OptparseArg() returns (arg: Option<string>)
      requires Valid()
      modifies this`optind, this`subopt
      ensures Valid() && subopt == 0
      ensures old(Rest()) == [] ==> arg == None && Rest() == []
      ensures old(Rest()) != [] ==> arg == Some(old(Rest())[0]) && Rest() == old(Rest())[1..]
    {
      subopt := 0;
      if optind < argv.Length {
        arg := Some(argv[optind]);
        optind := optind + 1;
      } else {
        arg := None;
      }
    }
  }

  lemma ShortIsReady(cfg: Config, args: seq<string>, sub: nat)
    requires args != [] && IsShortOption(args[0]) && sub < |args[0]|
    ensures Ready(cfg, args, sub)
  {
  }

  lemma CallProgress(cfg: Config, args: seq<string>, sub: nat, code: Code, event: Event,
                     used: seq<string>, args': seq<string>, sub': nat)
    requires Ready(cfg, args, sub) && CallDone(cfg, args, sub, code, event, used, args', sub') && code.Found?
    ensures Ready(cfg, args', sub') && |Scan(cfg, args', sub').events| < |Scan(cfg, args, sub).events|
  {
  }

  /** Calls the parser until it reports the end or the first error. */
  method ParseOptions(options: Parser, table: seq<LongOption>) returns (ok: bool, events: seq<Event>)
    requires options.Valid() && options.permute && options.subopt == 0
    modifies options, options.argv
    ensures options.Valid()
    ensures multiset(options.argv[..]) == old(multiset(options.argv[..]))
    ensures var o := Scan(Config(OptString(table), Some(table), true), old(options.Rest()), 0);
      && ok == o.Parsed?
      && events == o.events
      && (ok ==>
            && options.Rest() == o.operands
            && options.argv[..options.optind] == old(options.argv[..options.optind]) + Options(o))
  {
    hide Ready, CallDone, Scan, OptString;
    ghost var cfg, args := Config(OptString(table), Some(table), true), options.Rest();
    StartReady(cfg, args);
    ghost var o := Scan(cfg, args, 0);
    events := [];
    ghost var used := [];
    while true
      invariant options.Valid()
      invariant multiset(options.argv[..]) == old(multiset(options.argv[..]))
      invariant options.argv[..options.optind] == old(options.argv[..options.optind]) + used
      invariant Ready(cfg, options.Rest(), options.subopt)
      invariant o == Collected(events, used, Scan(cfg, options.Rest(), options.subopt))
      decreases |Scan(cfg, options.Rest(), options.subopt).events|
    {
      ghost var rest, sub, from := options.Rest(), options.subopt, options.optind;
      var code := options.OptparseLong(table);
      ghost var step := options.argv[from..options.optind];
      assert options.argv[..options.optind] == options.argv[..from] + step;
      CallCollected(cfg, rest, sub, code, options.Last(code), step, options.Rest(), options.subopt, events, used);
      if code == End {
        return true, events;
      }
      events := events + [options.Last(code)];
      if code == Bad {
        return false, events;
      }
      CallProgress(cfg, rest, sub, code, options.Last(code), step, options.Rest(), options.subopt);
      used := used + step;
    }
  }

  method ParseOperands(options: Parser) returns (operands: seq<string>)
    requires options.Valid()
    modifies options
    ensures operands == old(options.Rest())
  {
    operands := [];
    var arg := options.OptparseArg();
    while arg.Some?
      invariant options.Valid()
      invariant operands + (if arg.Some? then [arg.value] else []) + options.Rest() == old(options.Rest())
      invariant arg == None ==> options.Rest() == []
      decreases |options.Rest()| + if arg.Some? then 1 else 0
    {
      operands := operands + [arg.value];
      arg := options.OptparseArg();
    }
  }

  /**
    Parses a whole command line as the configuration reader does: options until the end or the first
    error, then the operands. The argument vector ends up with the options and what they use in front,
    in their old order, and the operands behind them, in theirs.
  */
  method ParseCommandLine(argv: array<string>, table: seq<LongOption>)
    returns (ok: bool, events: seq<Event>, operands: seq<string>)
    requires argv.Length >= 1
    modifies argv
    ensures multiset(argv[..]) == old(multiset(argv[..]))
    ensures var o := Scan(Config(OptString(table), Some(table), true), old(argv[1..]), 0);
      && ok == o.Parsed?
      && events == o.events
      && (ok ==> operands == o.operands && argv[..] == old(argv[..1]) + Options(o) + o.operands)
  {
    hide Ready, CallDone, Scan, OptString;
    var options := new Parser(argv);
    ok, events := ParseOptions(options, table);
    operands := [];
    if ok {
      assert argv[..] == argv[..options.optind] + options.Rest();
      operands := ParseOperands(options);
    }
  }

  /** What has been seen so far, followed by what is still to come. */
  function Collected(events: seq<Event>, used: seq<string>, o: Outcome): Outcome {
    match o
    case Parsed(events', used', dashed, operands) => Parsed(events + events', used + used', dashed, operands)
    case Rejected(events') => Rejected(events + events')
  }

  lemma StartReady(cfg: Config, args: seq<string>)
    ensures Ready(cfg, args, 0) && Scan(cfg, args, 0) == Collected([], [], Scan(cfg, args, 0))
  {
  }

  lemma CallCollected(cfg: Config, args: seq<string>, sub: nat, code: Code, event: Event, step: seq<string>,
                      args': seq<string>, sub': nat, events: seq<Event>, used: seq<string>)
    requires Ready(cfg, args, sub) && CallDone(cfg, args, sub, code, event, step, args', sub')
    ensures code == End ==>
      && Collected(events, used, Scan(cfg, args, sub)) == Parsed(events, used, step == ["--"], args')
      && step in {[], ["--"]}
    ensures code == Bad ==> Collected(events, used, Scan(cfg, args, sub)) == Rejected(events + [event])
    ensures code.Found? ==> Ready(cfg, args', sub')
    ensures code.Found? ==>
      Collected(events, used, Scan(cfg, args, sub)) == Collected(events + [event], used + step, Scan(cfg, args', sub'))
  {
    hide Scan, Ready;
    if code.Found? {
      match Scan(cfg, args', sub')
      case Parsed(events', used', dashed, operands) =>
        assert events + ([event] + events') == (events + [event]) + events';
        assert used + (step + used') == (used + step) + used';
      case Rejected(events') =>
        assert events + ([event] + events') == (events + [event]) + events';
    }
  }

  // ---------------------------------------------------------------------------------------------
  // Going on after an error

  /** The character at place `sub + 1` of a cluster is no option. */
  predicate IsUnknown(optstring: string, arg: string, sub: nat)
    requires sub < |arg|
  {
    sub + 1 == |arg| || ArgTypeOf(optstring, arg[sub + 1]) == None
  }

  /**
    The place inside the cluster is reset whenever the parser leaves a cluster, with one exception: an
    unknown option that is not the first of its cluster leaves the place behind for the next cluster.
  */
  lemma PlaceReset(optstring: string, arg: string, sub: nat, next: Option<string>)
    requires sub < |arg|
    ensures var m := ShortMove(optstring, arg, sub, next);
      m.advance > 0 && m.sub != 0 <==> IsUnknown(optstring, arg, sub) && sub > 0
  {
    hide ArgTypeOf;
  }

  /** From the place kept the rest is parsed as from the start, and no call reads behind the end of an argument. */
  ghost predicate GoesOnRight(cfg: Config, tail: seq<string>, place: nat) {
    Ready(cfg, tail, place) && Scan(cfg, tail, place) == Scan(cfg, tail, 0)
  }

  /** With a place kept, a cluster of one option goes wrong: the place is behind its end, or the option is skipped. */
  lemma ShortClusterGoesWrong(cfg: Config, c: char, place: nat)
    requires place > 0 && c != '-' && c != '\0'
    ensures !GoesOnRight(cfg, [['-', c]], place)
    ensures !Ready(cfg, [['-', c]], place) <==> place > 1
  {
    hide ArgTypeOf;
    var args := [['-', c]];
    assert IsShortOption(args[0]);
    if place == 1 {
      SameFirstEvent(cfg, args, 0, 1);
    }
  }

  /** Equal parses begin with the same event. */
  lemma SameFirstEvent(cfg: Config, args: seq<string>, a: nat, b: nat)
    requires args != [] && IsShortOption(args[0]) && a < |args[0]| && b < |args[0]|
    requires Ready(cfg, args, a) && Ready(cfg, args, b)
    ensures Scan(cfg, args, a) == Scan(cfg, args, b) ==>
      OptionMove(cfg, args, a).event == OptionMove(cfg, args, b).event
  {
    hide ShortMove, LongMove;
    FirstEvent(cfg, args, a);
    FirstEvent(cfg, args, b);
  }

  lemma FirstEvent(cfg: Config, args: seq<string>, sub: nat)
    requires args != [] && IsShortOption(args[0]) && sub < |args[0]| && Ready(cfg, args, sub)
    ensures Scan(cfg, args, sub).events != [] && Scan(cfg, args, sub).events[0] == OptionMove(cfg, args, sub).event
  {
    hide ArgTypeOf, LongMove;
  }

  /**
    A caller may go on after an error, whatever follows, exactly when that error was not an unknown option
    behind the first place of its cluster.
  */
  lemma MayGoOnAfterError(cfg: Config, arg: string, sub: nat, next: Option<string>)
    requires sub < |arg| && ShortMove(cfg.optstring, arg, sub, next).event.code == Bad
    ensures (forall tail :: GoesOnRight(cfg, tail, ShortMove(cfg.optstring, arg, sub, next).sub))
      <==> !(IsUnknown(cfg.optstring, arg, sub) && sub > 0)
  {
    hide ArgTypeOf, Scan;
    PlaceReset(cfg.optstring, arg, sub, next);
    var place := ShortMove(cfg.optstring, arg, sub, next).sub;
    if place > 0 {
      ShortClusterGoesWrong(cfg, 'x', place);
    } else {
      assert forall tail :: Ready(cfg, tail, 0);
    }
  }

  /** In a longer cluster the place kept skips options: the first one found is not the first one given. */
  lemma LongerClusterSkips(cfg: Config, arg: string, place: nat)
    requires IsShortOption(arg) && 0 < place && place + 1 < |arg| && arg[place + 1] != arg[1]
    ensures Ready(cfg, [arg], place) && !GoesOnRight(cfg, [arg], place)
  {
    hide ArgTypeOf;
    SameFirstEvent(cfg, [arg], 0, place);
  }

  /** With options a, b and c, the list `-ax -bc` loses option b: the parser goes on with c. */
  lemma StalePlaceLosesOption()
    ensures var cfg := Config("abc", None, true);
      var unknown := OptionMove(cfg, ["-ax", "-bc"], 1);
      && unknown.event == Event(Bad, 'x', None, Invalid("x"))
      && unknown.advance == 1
      && OptionMove(cfg, ["-bc"], unknown.sub).event == Ok('c', None)
      && OptionMove(cfg, ["-bc"], 0).event == Ok('b', None)
  {
    assert ArgTypeOf("abc", 'x') == None by {
      assert "abc"[1..] == "bc" && "bc"[1..] == "c" && "c"[1..] == "";
      assert ArgTypeOf("c", 'x') == None && ArgTypeOf("bc", 'x') == None;
    }
    assert ArgTypeOf("abc", 'c') == Some(NoArgument) by {
      assert "abc"[1..] == "bc" && "bc"[1..] == "c";
      assert ArgTypeOf("c", 'c') == Some(NoArgument) && ArgTypeOf("bc", 'c') == Some(NoArgument);
    }
    assert ArgTypeOf("abc", 'b') == Some(NoArgument) by {
      assert "abc"[1..] == "bc";
      assert ArgTypeOf("bc", 'b') == Some(NoArgument);
    }
  }
}
