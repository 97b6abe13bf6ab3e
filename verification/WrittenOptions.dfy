/**
  Command lines as they are written: what the parser finds in a list is told piece by piece, for every list
  there is, without naming the moves of the parser.
*/
module WrittenOptions {
  import opened Collections
  import opened Optparse

  /** The value of an option: none, in the same argument, or in the next one. */
  datatype Value = Bare | Glued(text: string) | Separate(text: string)

  /** A cluster of flags that ends in an option, perhaps with a value; a long option; or an operand. */
  datatype Piece =
    | Short(flags: string, name: char, value: Value)
    | Long(entry: nat, value: Value)
    | Operand(arg: string)

  /** What a list ends with: nothing, a double dash and operands, or an error and anything behind it. */
  datatype Ending =
    | Nothing
    | Dashes(rest: seq<string>)
    | UnknownShort(flags: string, c: char, more: string, rest: seq<string>)
    | MissingShort(flags: string, c: char)
    | UnknownLong(name: string, more: string, rest: seq<string>)
    | SurplusLong(entry: nat, text: string, rest: seq<string>)
    | MissingLong(entry: nat)

  // ---------------------------------------------------------------------------------------------
  // What may be written

  /** Entry `k` is the first one of the table with this short name. */
  ghost predicate ShortEntry(table: seq<LongOption>, c: char, k: nat) {
    c != '\0' && k < |table| && table[k].shortname == c && forall j :: 0 <= j < k ==> table[j].shortname != c
  }

  ghost predicate ShortTakes(table: seq<LongOption>, c: char, t: ArgType) {
    exists k: nat :: ShortEntry(table, c, k) && table[k].argtype == t
  }

  /** No entry has this short name. */
  ghost predicate NoShort(table: seq<LongOption>, c: char) {
    c == '\0' || forall k :: 0 <= k < |table| ==> table[k].shortname != c
  }

  /** Entry `k` is the first one of the table with its long name. */
  ghost predicate LongEntry(table: seq<LongOption>, k: nat) {
    && k < |table|
    && table[k].longname.Some?
    && '=' !in table[k].longname.value
    && forall j :: 0 <= j < k ==> table[j].longname != table[k].longname
  }

  function NameAt(table: seq<LongOption>, k: nat): string {
    if k < |table| && table[k].longname.Some? then table[k].longname.value else ""
  }

  /**
    An option that requires a value must have one, perhaps in an argument of its own; one that takes none must
    not, and one that may have one cannot have it in an argument of its own.
  */
  predicate Fits(t: ArgType, v: Value) {
    match v
    case Bare => t != Required
    case Glued(_) => t != NoArgument
    case Separate(_) => t == Required
  }

  /** Flags without values, in a cluster whose next option is `c`. */
  ghost predicate AreFlags(table: seq<LongOption>, flags: string, c: char) {
    (flags + [c])[0] != '-' && forall i :: 0 <= i < |flags| ==> ShortTakes(table, flags[i], NoArgument)
  }

  ghost predicate Permitted(table: seq<LongOption>, p: Piece) {
    match p
    case Short(flags, name, value) =>
      && AreFlags(table, flags, name)
      && (exists t :: ShortTakes(table, name, t) && Fits(t, value))
      && value != Glued("")
    case Long(entry, value) =>
      && LongEntry(table, entry)
      && Fits(table[entry].argtype, value)
      && (NameAt(table, entry) != "" || value.Glued?)
    case Operand(arg) => |arg| < 2 || arg[0] != '-'
  }

  ghost predicate MayEnd(table: seq<LongOption>, e: Ending) {
    match e
    case Nothing => true
    case Dashes(_) => true
    case UnknownShort(flags, c, _, _) => AreFlags(table, flags, c) && NoShort(table, c)
    case MissingShort(flags, c) => AreFlags(table, flags, c) && ShortTakes(table, c, Required)
    case UnknownLong(name, more, _) =>
      && '=' !in name
      && (more == "" || more[0] == '=')
      && name + more != ""
      && forall k :: 0 <= k < |table| ==> table[k].longname != Some(name)
    case SurplusLong(entry, _, _) => LongEntry(table, entry) && table[entry].argtype == NoArgument
    case MissingLong(entry) =>
      LongEntry(table, entry) && table[entry].argtype == Required && NameAt(table, entry) != ""
  }

  // ---------------------------------------------------------------------------------------------
  // How it is written, and what it means

  function Apart(v: Value): seq<string> {
    if v.Separate? then [v.text] else []
  }

  function Write(table: seq<LongOption>, p: Piece): seq<string> {
    match p
    case Short(flags, name, value) =>
      ["-" + flags + [name] + if value.Glued? then value.text else ""] + Apart(value)
    case Long(entry, value) =>
      ["--" + NameAt(table, entry) + if value.Glued? then "=" + value.text else ""] + Apart(value)
    case Operand(arg) => [arg]
  }

  function WriteAll(table: seq<LongOption>, pieces: seq<Piece>): seq<string> {
    if pieces == [] then [] else Write(table, pieces[0]) + WriteAll(table, pieces[1..])
  }

  function WriteEnd(table: seq<LongOption>, e: Ending): seq<string> {
    match e
    case Nothing => []
    case Dashes(rest) => ["--"] + rest
    case UnknownShort(flags, c, more, rest) => ["-" + flags + [c] + more] + rest
    case MissingShort(flags, c) => ["-" + flags + [c]]
    case UnknownLong(name, more, rest) => ["--" + name + more] + rest
    case SurplusLong(entry, text, rest) => ["--" + NameAt(table, entry) + "=" + text] + rest
    case MissingLong(entry) => ["--" + NameAt(table, entry)]
  }

  function FlagEvents(flags: string): seq<Event> {
    seq(|flags|, i requires 0 <= i < |flags| => Event(Found(flags[i]), flags[i], None, Quiet))
  }

  function Text(v: Value): Option<string> {
    if v.Bare? then None else Some(v.text)
  }

  function ShortnameAt(table: seq<LongOption>, k: nat): char {
    if k < |table| then table[k].shortname else '\0'
  }

  function Meaning(table: seq<LongOption>, p: Piece): seq<Event> {
    match p
    case Short(flags, name, value) => FlagEvents(flags) + [Event(Found(name), name, Text(value), Quiet)]
    case Long(entry, value) =>
      var c := ShortnameAt(table, entry);
      [Event(Found(c), c, Text(value), Quiet)]
    case Operand(_) => []
  }

  function Events(table: seq<LongOption>, pieces: seq<Piece>): seq<Event> {
    if pieces == [] then [] else Meaning(table, pieces[0]) + Events(table, pieces[1..])
  }

  /** The options with their values, without the operands between them. */
  function Used(table: seq<LongOption>, pieces: seq<Piece>): seq<string> {
    if pieces == [] then []
    else (if pieces[0].Operand? then [] else Write(table, pieces[0])) + Used(table, pieces[1..])
  }

  function Operands(pieces: seq<Piece>): seq<string> {
    if pieces == [] then []
    else (if pieces[0].Operand? then [pieces[0].arg] else []) + Operands(pieces[1..])
  }

  function EndOutcome(table: seq<LongOption>, e: Ending): Outcome {
    match e
    case Nothing => Parsed([], [], false, [])
    case Dashes(rest) => Parsed([], [], true, rest)
    case UnknownShort(flags, c, _, _) => Rejected(FlagEvents(flags) + [Event(Bad, c, None, Invalid([c]))])
    case MissingShort(flags, c) => Rejected(FlagEvents(flags) + [Event(Bad, c, None, Missing([c]))])
    case UnknownLong(name, more, _) => Rejected([Event(Bad, '\0', None, Invalid(name + more))])
    case SurplusLong(entry, _, _) =>
      Rejected([Event(Bad, ShortnameAt(table, entry), None, TooMany(NameAt(table, entry)))])
    case MissingLong(entry) =>
      Rejected([Event(Bad, ShortnameAt(table, entry), None, Missing(NameAt(table, entry)))])
  }

  /** What the parser is to find in a list that is written this way. */
  function Expected(table: seq<LongOption>, pieces: seq<Piece>, e: Ending): Outcome {
    match EndOutcome(table, e)
    case Parsed(_, _, dashed, operands) =>
      Parsed(Events(table, pieces), Used(table, pieces), dashed, Operands(pieces) + operands)
    case Rejected(events) => Rejected(Events(table, pieces) + events)
  }

  // ---------------------------------------------------------------------------------------------
  // Tables

  function Settings(table: seq<LongOption>): Config {
    Config(OptString(table), Some(table), true)
  }

  ghost predicate NoColon(table: seq<LongOption>) {
    forall k :: 0 <= k < |table| ==> table[k].shortname != ':'
  }

  lemma {:induction false} FirstShort(table: seq<LongOption>, c: char, k: nat)
    requires k < |table| && table[k].shortname == c && forall j :: 0 <= j < k ==> table[j].shortname != c
    ensures LookupShort(table, c) == Some(table[k].argtype)
  {
    if k > 0 {
      FirstShort(table[1..], c, k - 1);
    }
  }

  lemma {:induction false} NotShort(table: seq<LongOption>, c: char)
    requires forall k :: 0 <= k < |table| ==> table[k].shortname != c
    ensures LookupShort(table, c) == None
  {
    if table != [] {
      NotShort(table[1..], c);
    }
  }

  lemma {:induction false} FirstLong(table: seq<LongOption>, k: nat)
    requires k < |table| && table[k].longname.Some?
    requires forall j :: 0 <= j < k ==> table[j].longname != table[k].longname
    ensures LookupLong(table, table[k].longname.value) == Some(table[k])
  {
    if k > 0 {
      FirstLong(table[1..], k - 1);
    }
  }

  lemma {:induction false} NotLong(table: seq<LongOption>, name: string)
    requires forall k :: 0 <= k < |table| ==> table[k].longname != Some(name)
    ensures LookupLong(table, name) == None
  {
    if table != [] {
      NotLong(table[1..], name);
    }
  }

  lemma TakesMeans(table: seq<LongOption>, c: char, t: ArgType)
    requires NoColon(table) && ShortTakes(table, c, t)
    ensures ArgTypeOf(OptString(table), c) == Some(t)
  {
    hide ArgTypeOf, OptString, LookupShort;
    var k: nat :| ShortEntry(table, c, k) && table[k].argtype == t;
    FirstShort(table, c, k);
    OptStringRoundTrip(table, c);
  }

  lemma {:induction false} NoZero(table: seq<LongOption>)
    ensures '\0' !in OptString(table)
  {
    if table != [] {
      NoZero(table[1..]);
    }
  }

  lemma {:induction false} NotInString(optstring: string, c: char)
    requires c !in optstring
    ensures ArgTypeOf(optstring, c) == None
  {
    if optstring != "" {
      NotInString(optstring[1..], c);
    }
  }

  lemma NoShortMeans(table: seq<LongOption>, c: char)
    requires NoColon(table) && NoShort(table, c)
    ensures ArgTypeOf(OptString(table), c) == None
  {
    hide OptString, LookupShort;
    if c == '\0' {
      NoZero(table);
      NotInString(OptString(table), c);
    } else {
      NotShort(table, c);
      OptStringRoundTrip(table, c);
    }
  }

  // ---------------------------------------------------------------------------------------------
  // Short options

  lemma CollectedTwice(a: seq<Event>, u: seq<string>, b: seq<Event>, v: seq<string>, o: Outcome)
    ensures Collected(a, u, Collected(b, v, o)) == Collected(a + b, u + v, o)
  {
    match o
    case Parsed(events, used, _, _) =>
      assert a + (b + events) == (a + b) + events && u + (v + used) == (u + v) + used;
    case Rejected(events) =>
      assert a + (b + events) == (a + b) + events;
  }

  /** One option at the front of what is left of the list. */
  lemma OneOption(cfg: Config, args: seq<string>, sub: nat, m: Move)
    requires args != [] && IsOption(cfg, args[0]) && (IsShortOption(args[0]) ==> sub < |args[0]|)
    requires Ready(cfg, args, sub) && m == OptionMove(cfg, args, sub)
    ensures m.event.code == Bad ==> Scan(cfg, args, sub) == Rejected([m.event])
    ensures m.event.code != Bad ==>
      && m.advance <= |args|
      && Ready(cfg, args[m.advance..], m.sub)
      && Scan(cfg, args, sub) == Collected([m.event], args[..m.advance], Scan(cfg, args[m.advance..], m.sub))
  {
    if m.event.code != Bad {
      OptionInFront(cfg, args, m, sub);
    }
  }

  lemma ClusterLooks(flags: string, c: char, more: string)
    requires (flags + [c])[0] != '-'
    ensures var arg := "-" + flags + [c] + more;
      && IsShortOption(arg)
      && !IsDashDash(arg)
      && |arg| == |flags| + 2 + |more|
      && (forall i :: 0 <= i < |flags| ==> arg[i + 1] == flags[i])
      && arg[|flags| + 1] == c
      && arg[|flags| + 2..] == more
  {
    var arg := "-" + flags + [c] + more;
    assert arg[1] == (flags + [c])[0];
  }

  /** The flags at the front of a cluster are found one by one. */
  lemma {:induction false} FlagsFound(table: seq<LongOption>, flags: string, c: char, more: string,
                                      rest: seq<string>, i: nat)
    requires NoColon(table) && AreFlags(table, flags, c) && i <= |flags|
    ensures var args := ["-" + flags + [c] + more] + rest;
      && Ready(Settings(table), args, i)
      && Ready(Settings(table), args, |flags|)
      && Scan(Settings(table), args, i) == Collected(FlagEvents(flags[i..]), [], Scan(Settings(table), args, |flags|))
    decreases |flags| - i
  {
    hide Scan, OptString, ArgTypeOf;
    var cfg, args := Settings(table), ["-" + flags + [c] + more] + rest;
    ClusterLooks(flags, c, more);
    ShortIsReady(cfg, args, i);
    ShortIsReady(cfg, args, |flags|);
    if i == |flags| {
      NothingCollected(Scan(cfg, args, i));
    } else {
      FlagsFound(table, flags, c, more, rest, i + 1);
      TakesMeans(table, flags[i], NoArgument);
      var m := OptionMove(cfg, args, i);
      assert m == Move(Ok(flags[i], None), 0, i + 1);
      OneOption(cfg, args, i, m);
      assert args[0..] == args && args[..0] == [];
      CollectedTwice([m.event], [], FlagEvents(flags[i + 1..]), [], Scan(cfg, args, |flags|));
      assert [m.event] + FlagEvents(flags[i + 1..]) == FlagEvents(flags[i..]);
    }
  }

  lemma NothingCollected(o: Outcome)
    ensures Collected([], [], o) == o && Collected(FlagEvents(""), [], o) == o
  {
    assert FlagEvents("") == [];
    match o
    case Parsed(events, used, _, _) => assert [] + events == events && [] + used == used;
    case Rejected(events) => assert [] + events == events;
  }

  /** A cluster whose last option is found takes that option's move behind its flags. */
  lemma ClusterFound(table: seq<LongOption>, flags: string, c: char, more: string, rest: seq<string>)
    requires NoColon(table) && AreFlags(table, flags, c)
    ensures var cfg, args := Settings(table), ["-" + flags + [c] + more] + rest;
      && Ready(cfg, args, 0)
      && var m := ShortMove(cfg.optstring, args[0], |flags|, At(rest, 0));
      && (m.event.code == Bad ==> Scan(cfg, args, 0) == Rejected(FlagEvents(flags) + [m.event]))
      && (m.event.code != Bad && m.advance > 0 && m.sub == 0 ==>
            && m.advance <= |args|
            && Scan(cfg, args, 0) ==
                 Collected(FlagEvents(flags) + [m.event], args[..m.advance], Scan(cfg, args[m.advance..], 0)))
  {
    hide Scan, OptString, ArgTypeOf, ShortMove;
    var cfg, args := Settings(table), ["-" + flags + [c] + more] + rest;
    ClusterLooks(flags, c, more);
    FlagsFound(table, flags, c, more, rest, 0);
    assert flags[0..] == flags && At(args, 1) == At(rest, 0);
    var m := OptionMove(cfg, args, |flags|);
    OneOption(cfg, args, |flags|, m);
    if m.event.code != Bad && m.advance > 0 && m.sub == 0 {
      var o := Scan(cfg, args[m.advance..], 0);
      CollectedTwice(FlagEvents(flags), [], [m.event], args[..m.advance], o);
      assert [] + args[..m.advance] == args[..m.advance];
    }
  }

  lemma ShortFound(table: seq<LongOption>, p: Piece, rest: seq<string>)
    requires NoColon(table) && p.Short? && Permitted(table, p)
    ensures Scan(Settings(table), Write(table, p) + rest, 0) ==
      Collected(Meaning(table, p), Write(table, p), Scan(Settings(table), rest, 0))
  {
    hide Scan, OptString, ArgTypeOf, Ready, ShortMove, FlagEvents, Fits, AreFlags, ShortTakes;
    var cfg, more := Settings(table), if p.value.Glued? then p.value.text else "";
    var t :| ShortTakes(table, p.name, t) && Fits(t, p.value);
    TakesMeans(table, p.name, t);
    var arg := "-" + p.flags + [p.name] + more;
    ClusterOfFlags(table, p.flags, p.name, more);
    ClusterFound(table, p.flags, p.name, more, Apart(p.value) + rest);
    var args := [arg] + (Apart(p.value) + rest);
    var m := ShortMove(cfg.optstring, arg, |p.flags|, At(Apart(p.value) + rest, 0));
    LastOfCluster(cfg.optstring, arg, |p.flags|, p, t, rest);
    assert Write(table, p) == [arg] + Apart(p.value);
    assert args == Write(table, p) + rest;
    assert args[..m.advance] == Write(table, p) && args[m.advance..] == rest;
  }

  lemma ClusterOfFlags(table: seq<LongOption>, flags: string, c: char, more: string)
    requires AreFlags(table, flags, c)
    ensures var arg := "-" + flags + [c] + more;
      |flags| + 1 < |arg| && arg[|flags| + 1] == c && arg[|flags| + 2..] == more
  {
    ClusterLooks(flags, c, more);
  }

  /** The move of the option that ends a cluster. */
  lemma LastOfCluster(optstring: string, arg: string, sub: nat, p: Piece, t: ArgType, rest: seq<string>)
    requires p.Short? && p.value != Glued("") && Fits(t, p.value) && ArgTypeOf(optstring, p.name) == Some(t)
    requires sub + 1 < |arg| && arg[sub + 1] == p.name
    requires arg[sub + 2..] == if p.value.Glued? then p.value.text else ""
    ensures ShortMove(optstring, arg, sub, At(Apart(p.value) + rest, 0)) ==
      Move(Event(Found(p.name), p.name, Text(p.value), Quiet), if p.value.Separate? then 2 else 1, 0)
  {
    hide ArgTypeOf;
  }

  // ---------------------------------------------------------------------------------------------
  // Long options

  lemma LongLooks(name: string, more: string)
    requires '=' !in name && (more == "" || more[0] == '=') && name + more != ""
    ensures var arg := "--" + name + more;
      && IsLongOption(arg)
      && !IsShortOption(arg)
      && !IsDashDash(arg)
      && arg[2..] == name + more
      && NameOf(name + more) == name
      && ValueOf(name + more) == if more == "" then None else Some(more[1..])
  {
    var option := name + more;
    assert option[..|name|] == name;
    NameHasNoEquals(option, |name|);
    assert more != "" ==> option[|name|] == '=' && option[|name| + 1..] == more[1..];
    assert ("--" + name + more)[2..] == option;
  }

  lemma LongFound(table: seq<LongOption>, p: Piece, rest: seq<string>)
    requires NoColon(table) && p.Long? && Permitted(table, p)
    ensures Scan(Settings(table), Write(table, p) + rest, 0) ==
      Collected(Meaning(table, p), Write(table, p), Scan(Settings(table), rest, 0))
  {
    hide Scan, OptString, LookupLong, NameOf, ValueOf, Ready;
    var cfg, name := Settings(table), NameAt(table, p.entry);
    var more := if p.value.Glued? then "=" + p.value.text else "";
    LongLooks(name, more);
    FirstLong(table, p.entry);
    var arg := "--" + name + more;
    var args := [arg] + (Apart(p.value) + rest);
    assert Write(table, p) == [arg] + Apart(p.value);
    assert args == Write(table, p) + rest;
    assert p.value.Glued? ==> more[1..] == p.value.text;
    var c := table[p.entry].shortname;
    StartReady(cfg, args);
    var m := OptionMove(cfg, args, 0);
    assert m == Move(Event(Found(c), c, Text(p.value), Quiet), if p.value.Separate? then 2 else 1, 0);
    OneOption(cfg, args, 0, m);
    assert args[..m.advance] == Write(table, p) && args[m.advance..] == rest;
  }

  // ---------------------------------------------------------------------------------------------
  // Whole lists

  lemma OperandFound(table: seq<LongOption>, arg: string, rest: seq<string>)
    requires |arg| < 2 || arg[0] != '-'
    ensures Scan(Settings(table), [arg] + rest, 0) == Skip(arg, Scan(Settings(table), rest, 0))
  {
    OperandInFront(Settings(table), arg, rest, 0);
    StartReady(Settings(table), rest);
  }

  lemma EndFound(table: seq<LongOption>, e: Ending)
    requires NoColon(table) && MayEnd(table, e)
    ensures Scan(Settings(table), WriteEnd(table, e), 0) == EndOutcome(table, e)
  {
    match e
    case Nothing =>
    case Dashes(rest) => assert WriteEnd(table, e)[1..] == rest;
    case UnknownShort(_, _, _, _) => ShortErrorFound(table, e);
    case MissingShort(_, _) => ShortErrorFound(table, e);
    case UnknownLong(_, _, _) => LongErrorFound(table, e);
    case SurplusLong(_, _, _) => LongErrorFound(table, e);
    case MissingLong(_) => LongErrorFound(table, e);
  }

  lemma ShortErrorFound(table: seq<LongOption>, e: Ending)
    requires NoColon(table) && MayEnd(table, e) && (e.UnknownShort? || e.MissingShort?)
    ensures Scan(Settings(table), WriteEnd(table, e), 0) == EndOutcome(table, e)
  {
    hide Scan, OptString, ArgTypeOf, Ready;
    var more, rest := if e.UnknownShort? then e.more else "", if e.UnknownShort? then e.rest else [];
    if e.UnknownShort? {
      NoShortMeans(table, e.c);
    } else {
      TakesMeans(table, e.c, Required);
    }
    ClusterLooks(e.flags, e.c, more);
    ClusterFound(table, e.flags, e.c, more, rest);
    assert more == "" ==> "-" + e.flags + [e.c] + more == "-" + e.flags + [e.c];
    assert WriteEnd(table, e) == ["-" + e.flags + [e.c] + more] + rest;
  }

  lemma LongErrorFound(table: seq<LongOption>, e: Ending)
    requires MayEnd(table, e) && (e.UnknownLong? || e.SurplusLong? || e.MissingLong?)
    ensures Scan(Settings(table), WriteEnd(table, e), 0) == EndOutcome(table, e)
  {
    hide Scan, OptString, LookupLong, NameOf, ValueOf;
    var args := WriteEnd(table, e);
    match e {
      case UnknownLong(name, more, rest) =>
        LongLooks(name, more);
        NotLong(table, name);
      case SurplusLong(entry, text, rest) =>
        var name := NameAt(table, entry);
        LongLooks(name, "=" + text);
        assert "--" + name + "=" + text == "--" + name + ("=" + text);
        FirstLong(table, entry);
      case MissingLong(entry) =>
        var name := NameAt(table, entry);
        LongLooks(name, "");
        assert "--" + name + "" == "--" + name && name + "" == name;
        FirstLong(table, entry);
    }
    LongEnds(table, args);
  }

  lemma LongEnds(table: seq<LongOption>, args: seq<string>)
    requires args != [] && IsLongOption(args[0])
    ensures var m := LongMove(table, args[0], 0, At(args, 1));
      m.event.code == Bad ==> Scan(Settings(table), args, 0) == Rejected([m.event])
  {
    hide OptString, LongMove;
    StartReady(Settings(table), args);
    assert !IsShortOption(args[0]) && !IsDashDash(args[0]);
  }

  /**
    For every list of options with or without values, written in any permitted form and mixed with operands, the
    parser finds exactly these options, values and operands; and it stops at the first error with that error.
  */
  lemma {:induction false} WrittenIsRead(table: seq<LongOption>, pieces: seq<Piece>, e: Ending)
    requires NoColon(table) && MayEnd(table, e)
    requires forall i :: 0 <= i < |pieces| ==> Permitted(table, pieces[i])
    ensures Scan(Settings(table), WriteAll(table, pieces) + WriteEnd(table, e), 0) == Expected(table, pieces, e)
  {
    hide Scan, OptString, Permitted, Write, Meaning, MayEnd;
    if pieces == [] {
      assert WriteAll(table, pieces) + WriteEnd(table, e) == WriteEnd(table, e);
      EndFound(table, e);
      ExpectedEnd(table, e);
    } else {
      var p, rest := pieces[0], WriteAll(table, pieces[1..]) + WriteEnd(table, e);
      assert WriteAll(table, pieces) + WriteEnd(table, e) == Write(table, p) + rest;
      WrittenIsRead(table, pieces[1..], e);
      PieceFound(table, p, rest);
      ExpectedNext(table, pieces, e);
    }
  }

  lemma PieceFound(table: seq<LongOption>, p: Piece, rest: seq<string>)
    requires NoColon(table) && Permitted(table, p)
    ensures Scan(Settings(table), Write(table, p) + rest, 0) ==
      if p.Operand? then Skip(p.arg, Scan(Settings(table), rest, 0))
      else Collected(Meaning(table, p), Write(table, p), Scan(Settings(table), rest, 0))
  {
    hide Scan, OptString;
    match p
    case Short(_, _, _) => ShortFound(table, p, rest);
    case Long(_, _) => LongFound(table, p, rest);
    case Operand(arg) => OperandFound(table, arg, rest);
  }

  lemma ExpectedEnd(table: seq<LongOption>, e: Ending)
    ensures Expected(table, [], e) == EndOutcome(table, e)
  {
    match EndOutcome(table, e)
    case Parsed(_, _, _, operands) => assert [] + operands == operands;
    case Rejected(events) => assert [] + events == events;
  }

  lemma ExpectedNext(table: seq<LongOption>, pieces: seq<Piece>, e: Ending)
    requires pieces != []
    ensures var p := pieces[0];
      Expected(table, pieces, e) ==
        if p.Operand? then Skip(p.arg, Expected(table, pieces[1..], e))
        else Collected(Meaning(table, p), Write(table, p), Expected(table, pieces[1..], e))
  {
    hide Write, Meaning;
    var p, tail := pieces[0], pieces[1..];
    var events, used, operands := Events(table, tail), Used(table, tail), Operands(tail);
    if p.Operand? {
      OperandMeansNothing(table, p);
      assert [] + events == events && [] + used == used;
    } else {
      assert [] + operands == operands;
    }
    hide Events, Used, Operands;
    match EndOutcome(table, e)
    case Parsed(_, _, _, operands') =>
      assert p.Operand? ==> ([p.arg] + operands) + operands' == [p.arg] + (operands + operands');
    case Rejected(events') =>
      assert (Meaning(table, p) + events) + events' == Meaning(table, p) + (events + events');
  }

  lemma OperandMeansNothing(table: seq<LongOption>, p: Piece)
    requires p.Operand?
    ensures Meaning(table, p) == []
  {
  }

  // ---------------------------------------------------------------------------------------------
  // Every list is written that way

  /** An option of the table, whatever its values, or one that is not in it. */
  lemma {:induction false} FindShort(table: seq<LongOption>, c: char, from: nat) returns (found: Option<ArgType>)
    requires c != '\0' && from <= |table| && forall j :: 0 <= j < from ==> table[j].shortname != c
    ensures found.Some? ==> ShortTakes(table, c, found.value)
    ensures found.None? ==> NoShort(table, c)
    decreases |table| - from
  {
    if from == |table| {
      found := None;
    } else if table[from].shortname == c {
      assert ShortEntry(table, c, from);
      found := Some(table[from].argtype);
    } else {
      found := FindShort(table, c, from + 1);
    }
  }

  lemma {:induction false} FindLong(table: seq<LongOption>, name: string, from: nat) returns (found: Option<nat>)
    requires '=' !in name && from <= |table| && forall j :: 0 <= j < from ==> table[j].longname != Some(name)
    ensures found.Some? ==> LongEntry(table, found.value) && NameAt(table, found.value) == name
    ensures found.None? ==> forall k :: 0 <= k < |table| ==> table[k].longname != Some(name)
    decreases |table| - from
  {
    if from == |table| {
      found := None;
    } else if table[from].longname == Some(name) {
      found := Some(from);
    } else {
      found := FindLong(table, name, from + 1);
    }
  }

  /** A list that begins with a piece, or is an ending. */
  datatype Reading = Begins(piece: Piece) | Ends(ending: Ending)

  ghost predicate Reads(table: seq<LongOption>, args: seq<string>, r: Reading) {
    match r
    case Begins(p) =>
      Permitted(table, p) && |Write(table, p)| <= |args| && args[..|Write(table, p)|] == Write(table, p)
    case Ends(e) => MayEnd(table, e) && args == WriteEnd(table, e)
  }

  /** A cluster whose first `i` options are flags. */
  lemma {:induction false} ReadCluster(table: seq<LongOption>, args: seq<string>, i: nat) returns (r: Reading)
    requires args != [] && |args[0]| >= 2 && args[0][0] == '-' && args[0][1] != '-' && i + 1 < |args[0]|
    requires forall j :: 1 <= j <= i ==> ShortTakes(table, args[0][j], NoArgument)
    ensures Reads(table, args, r)
    decreases |args[0]| - i
  {
    hide ShortTakes, NoShort;
    var arg, rest := args[0], args[1..];
    var flags, c, more := arg[1..i + 1], arg[i + 1], arg[i + 2..];
    SplitCluster(arg, i);
    assert args == [arg] + rest;
    assert AreFlags(table, flags, c);
    hide AreFlags;
    var t := KindOf(table, c);
    if t == None {
      r := Ends(UnknownShort(flags, c, more, rest));
    } else if t.value == NoArgument && more != "" {
      r := ReadCluster(table, args, i + 1);
    } else if more != "" {
      r := Begins(Short(flags, c, Glued(more)));
      assert Write(table, r.piece) == [arg];
    } else if t.value != Required {
      r := Begins(Short(flags, c, Bare));
      assert Write(table, r.piece) == [arg];
    } else if rest == [] {
      assert arg == "-" + flags + [c];
      r := Ends(MissingShort(flags, c));
      assert WriteEnd(table, r.ending) == [arg];
    } else {
      r := Begins(Short(flags, c, Separate(rest[0])));
      assert Write(table, r.piece) == [arg, rest[0]];
    }
  }

  lemma SplitCluster(arg: string, i: nat)
    requires i + 1 < |arg| && arg[0] == '-'
    ensures var flags, c, more := arg[1..i + 1], arg[i + 1], arg[i + 2..];
      && arg == "-" + flags + [c] + more
      && (flags + [c])[0] == arg[1]
      && forall j :: 0 <= j < |flags| ==> flags[j] == arg[j + 1]
  {
  }

  lemma KindOf(table: seq<LongOption>, c: char) returns (t: Option<ArgType>)
    ensures t.Some? ==> ShortTakes(table, c, t.value)
    ensures t.None? ==> NoShort(table, c)
  {
    if c == '\0' {
      t := None;
    } else {
      t := FindShort(table, c, 0);
    }
  }

  lemma SplitLong(option: string) returns (name: string, more: string)
    ensures option == name + more && '=' !in name && (more == "" || more[0] == '=')
  {
    if option == "" || option[0] == '=' {
      name, more := "", option;
    } else {
      name, more := SplitLong(option[1..]);
      name := [option[0]] + name;
    }
  }

  lemma ReadLong(table: seq<LongOption>, args: seq<string>) returns (r: Reading)
    requires args != [] && |args[0]| >= 3 && args[0][0] == '-' && args[0][1] == '-'
    ensures Reads(table, args, r)
  {
    var arg, rest := args[0], args[1..];
    var name, more := SplitLong(arg[2..]);
    assert arg == "--" + name + more && args == [arg] + rest;
    var k := FindLong(table, name, 0);
    hide LongEntry;
    if k == None {
      r := Ends(UnknownLong(name, more, rest));
    } else {
      r := ReadLongEntry(table, args, k.value, more);
    }
  }

  lemma ReadLongEntry(table: seq<LongOption>, args: seq<string>, k: nat, more: string) returns (r: Reading)
    requires LongEntry(table, k) && args != [] && args[0] == "--" + NameAt(table, k) + more
    requires (more == "" || more[0] == '=') && NameAt(table, k) + more != ""
    ensures Reads(table, args, r)
  {
    var arg, rest, t := args[0], args[1..], table[k].argtype;
    assert args == [arg] + rest;
    if more != "" {
      assert more == "=" + more[1..];
      assert arg == "--" + NameAt(table, k) + "=" + more[1..] == "--" + NameAt(table, k) + ("=" + more[1..]);
      if t == NoArgument {
        r := Ends(SurplusLong(k, more[1..], rest));
      } else {
        r := Begins(Long(k, Glued(more[1..])));
        assert Write(table, r.piece) == [arg];
      }
    } else if t != Required {
      r := Begins(Long(k, Bare));
      assert Write(table, r.piece) == [arg];
    } else if rest == [] {
      assert arg == "--" + NameAt(table, k);
      r := Ends(MissingLong(k));
      assert WriteEnd(table, r.ending) == [arg];
    } else {
      r := Begins(Long(k, Separate(rest[0])));
      assert Write(table, r.piece) == [arg, rest[0]];
    }
  }

  lemma ReadFirst(table: seq<LongOption>, args: seq<string>) returns (r: Reading)
    ensures Reads(table, args, r)
  {
    if args == [] {
      r := Ends(Nothing);
    } else if |args[0]| < 2 || args[0][0] != '-' {
      r := Begins(Operand(args[0]));
    } else if args[0][1] != '-' {
      r := ReadCluster(table, args, 0);
    } else if |args[0]| == 2 {
      r := Ends(Dashes(args[1..]));
      assert args[0] == "--";
      assert args == ["--"] + args[1..];
    } else {
      r := ReadLong(table, args);
    }
  }

  /** Every list consists of permitted pieces and an ending, so what is found in it is what is expected there. */
  lemma {:induction false} EveryListIsWritten(table: seq<LongOption>, args: seq<string>)
    returns (pieces: seq<Piece>, e: Ending)
    ensures args == WriteAll(table, pieces) + WriteEnd(table, e)
    ensures MayEnd(table, e) && forall i :: 0 <= i < |pieces| ==> Permitted(table, pieces[i])
    decreases |args|
  {
    hide Permitted, MayEnd, Write, WriteAll, WriteEnd;
    var r := ReadFirst(table, args);
    if r.Ends? {
      pieces, e := [], r.ending;
      NothingWritten(table, e);
    } else {
      var n := |Write(table, r.piece)|;
      PieceNotEmpty(table, r.piece);
      var tail;
      tail, e := EveryListIsWritten(table, args[n..]);
      pieces := [r.piece] + tail;
      PieceInFront(table, r.piece, tail, e);
      assert args == args[..n] + args[n..];
    }
  }

  lemma NothingWritten(table: seq<LongOption>, e: Ending)
    ensures WriteAll(table, []) + WriteEnd(table, e) == WriteEnd(table, e)
  {
  }

  lemma PieceNotEmpty(table: seq<LongOption>, p: Piece)
    ensures |Write(table, p)| > 0
  {
  }

  lemma PieceInFront(table: seq<LongOption>, p: Piece, tail: seq<Piece>, e: Ending)
    ensures WriteAll(table, [p] + tail) + WriteEnd(table, e) ==
      Write(table, p) + (WriteAll(table, tail) + WriteEnd(table, e))
  {
    hide Write, WriteEnd;
    assert ([p] + tail)[1..] == tail;
  }

  /** So the result of every parse is told by the way its list is written. */
  lemma ParseMeans(table: seq<LongOption>, args: seq<string>) returns (pieces: seq<Piece>, e: Ending)
    requires NoColon(table)
    ensures args == WriteAll(table, pieces) + WriteEnd(table, e)
    ensures MayEnd(table, e) && forall i :: 0 <= i < |pieces| ==> Permitted(table, pieces[i])
    ensures Scan(Settings(table), args, 0) == Expected(table, pieces, e)
  {
    hide Scan, OptString, Permitted, MayEnd, Expected;
    pieces, e := EveryListIsWritten(table, args);
    WrittenIsRead(table, pieces, e);
  }

  /** `-rout model.ssd` asks for the result directory `out`. */
  lemma ResultDirectory()
    ensures var table := [LongOption(Some("resultdir"), 'r', Required)];
      Scan(Settings(table), ["-rout", "model.ssd"], 0) ==
        Parsed([Event(Found('r'), 'r', Some("out"), Quiet)], ["-rout"], false, ["model.ssd"])
  {
    hide Scan, OptString;
    var table := [LongOption(Some("resultdir"), 'r', Required)];
    var pieces := [Short("", 'r', Glued("out")), Operand("model.ssd")];
    assert ShortEntry(table, 'r', 0);
    assert ShortTakes(table, 'r', Required) && Fits(Required, Glued("out"));
    assert "" + ['r'] == "r" && "-" + "" + ['r'] + "out" == "-rout";
    assert pieces[1..] == [pieces[1]] && pieces[1..][1..] == [];
    assert WriteAll(table, pieces) + [] == ["-rout", "model.ssd"];
    assert FlagEvents("") == [];
    WrittenIsRead(table, pieces, Nothing);
  }
}
