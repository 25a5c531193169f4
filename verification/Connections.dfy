/**
 The connection loop of System::load_config: a list of strings, each meant to name a host pin and
 a SoC pin as two decimal numbers.
 */
module Connections {
  import opened Board

  const INT_MAX := 0x7fff_ffff

  predicate Digit(c: char) { '0' <= c <= '9' }

  predicate Digits(s: string) {
    s != [] && forall i :: 0 <= i < |s| ==> Digit(s[i])
  }

  // What c_str shows of a string: the characters before the first null character.
  function CStr(s: string): (r: string)
    ensures r <= s && '\0' !in r && (|r| < |s| ==> s[|r|] == '\0')
  {
    if s == [] || s[0] == '\0' then [] else [s[0]] + CStr(s[1..])
  }

  // The value of a string of decimal digits, leading zeros allowed.
  function Decimal(s: string): nat
    requires forall i :: 0 <= i < |s| ==> Digit(s[i])
  {
    if s == [] then 0
    else
      assert Digit(s[|s| - 1]);
      Decimal(s[..|s| - 1]) * 10 + (s[|s| - 1] as int - '0' as int)
  }

  // The length of the longest prefix of digits.
  function DigitRun(s: string): (n: nat)
    ensures n <= |s|
    ensures forall i :: 0 <= i < n ==> Digit(s[i])
    ensures n < |s| ==> !Digit(s[n])
  {
    if s == [] || !Digit(s[0]) then 0 else 1 + DigitRun(s[1..])
  }

  datatype Entry = NoMatch | OutOfRange | Pins(host: nat, soc: nat)

  // One entry: it must match digits:digits as a whole, and then stoi reads both numbers, host
  // first, and throws for one that an int cannot hold.
  function Parse(entry: string): Entry {
    var s := CStr(entry);
    var n := DigitRun(s);
    if n == 0 || n >= |s| || s[n] != ':' then NoMatch
    else
      var rest := s[n + 1..];
      if !Digits(rest) then NoMatch
      else if Decimal(s[..n]) > INT_MAX || Decimal(rest) > INT_MAX then OutOfRange
      else Pins(Decimal(s[..n]), Decimal(rest))
  }

  // The whole loop: it stops at the first entry whose number is out of range.
  datatype Loaded = Loaded(board: Board, threw: bool)

  function Load(b: Board, entries: seq<string>): Loaded {
    if entries == [] then Loaded(b, false)
    else
      var before := Load(b, entries[..|entries| - 1]);
      if before.threw then before
      else
        match Parse(entries[|entries| - 1])
        case NoMatch => before
        case OutOfRange => before.(threw := true)
        case Pins(host, soc) => before.(board := Link(before.board, host, soc))
  }

  // ---------------------------------------------------------------- what an entry means

  // host and soc are spelled by the entry: digits, a colon, digits.
  predicate Spells(entry: string, host: string, soc: string) {
    Digits(host) && Digits(soc) && CStr(entry) == host + ":" + soc
  }

  lemma SpellingIsUnique(entry: string, host: string, soc: string)
    requires Spells(entry, host, soc)
    ensures var s := CStr(entry);
            DigitRun(s) == |host| && s[..|host|] == host && |host| < |s| && s[|host|] == ':' && s[|host| + 1..] == soc
  {
    var s := CStr(entry);
    var n := DigitRun(s);
    assert s[|host|] == ':';
    assert forall i :: 0 <= i < |host| ==> s[i] == host[i] && Digit(s[i]);
    assert n <= |host|;
  }

  // An entry names the pins h and s exactly if it spells two numbers, with the values h and s,
  // that an int can hold; it throws exactly if it spells two numbers one of which is larger.
  lemma ParseMeaning(entry: string, h: nat, s: nat)
    ensures Parse(entry) == Pins(h, s) <==>
            exists host, soc ::
              Spells(entry, host, soc) && Decimal(host) == h <= 2147483647 && Decimal(soc) == s <= 2147483647
    ensures Parse(entry) == OutOfRange <==>
            exists host, soc :: Spells(entry, host, soc) && (Decimal(host) > 2147483647 || Decimal(soc) > 2147483647)
  {
    var t := CStr(entry);
    var n := DigitRun(t);
    if Parse(entry) != NoMatch {
      var host, soc := t[..n], t[n + 1..];
      assert t == host + ":" + soc;
      assert Spells(entry, host, soc);
    }
    forall host, soc | Spells(entry, host, soc) ensures host == t[..n] && soc == t[n + 1..] && Parse(entry) != NoMatch {
      SpellingIsUnique(entry, host, soc);
    }
  }

  function DigitOf(d: nat): char
    requires d < 10
  {
    ('0' as int + d) as char
  }

  function Show(n: nat): string {
    if n < 10 then [DigitOf(n)] else Show(n / 10) + [DigitOf(n % 10)]
  }

  lemma {:induction false} ShowThenRead(n: nat)
    ensures Digits(Show(n)) && Decimal(Show(n)) == n
  {
    if n >= 10 {
      ShowThenRead(n / 10);
      var front := Show(n / 10);
      assert Show(n)[..|front|] == front;
      assert Show(n)[|front|] == DigitOf(n % 10);
    } else {
      assert Decimal([]) == 0 && Show(n)[..0] == [];
    }
  }

  lemma DigitIs(c: char)
    ensures Digit(c) <==> c in "0123456789"
  {
  }

  // The string of that many zeros.
  function Zeros(n: nat): string {
    if n == 0 then [] else Zeros(n - 1) + ['0']
  }

  lemma {:induction false} DecimalOfZeros(n: nat)
    ensures |Zeros(n)| == n && (forall i :: 0 <= i < n ==> Zeros(n)[i] == '0') && Decimal(Zeros(n)) == 0
  {
    if n > 0 {
      DecimalOfZeros(n - 1);
      assert Zeros(n)[..n - 1] == Zeros(n - 1);
    }
  }

  // Any string of digits is the decimal spelling of its value after some zeros, or is all zeros.
  lemma {:induction false} ReadThenShow(s: string) returns (zeros: nat)
    requires Digits(s)
    ensures s == Zeros(zeros) + Show(Decimal(s))
  {
    var front, d := s[..|s| - 1], s[|s| - 1];
    assert s == front + [d] && Digit(d);
    var v := d as int - '0' as int;
    assert DigitOf(v) == d;
    if front == [] {
      assert Decimal(front) == 0;
      zeros := 0;
    } else {
      zeros := ReadThenShow(front);
      var n := Decimal(front);
      if n == 0 {
        assert Show(0) == ['0'];
        zeros := zeros + 1;
        assert Zeros(zeros) == front;
      } else {
        assert (10 * n + v) / 10 == n && (10 * n + v) % 10 == v;
        assert Show(Decimal(s)) == Show(n) + [d];
      }
    }
  }

  lemma {:induction false} CStrOfPlain(s: string)
    requires '\0' !in s
    ensures CStr(s) == s
  {
    if s != [] {
      CStrOfPlain(s[1..]);
    }
  }

  // Every wire between pins that an int can name can be written down and is read back.
  lemma EveryWireCanBeWritten(h: nat, s: nat)
    requires h <= 2147483647 && s <= 2147483647
    ensures Parse(Show(h) + ":" + Show(s)) == Pins(h, s)
  {
    ShowThenRead(h);
    ShowThenRead(s);
    var entry := Show(h) + ":" + Show(s);
    CStrOfPlain(entry);
    assert Spells(entry, Show(h), Show(s));
    ParseMeaning(entry, h, s);
  }

  // ---------------------------------------------------------------- what a configuration means

  // Some entry names the two pins.
  predicate Listed(entries: seq<string>, host: nat, soc: nat) {
    exists e :: e in entries && Parse(e) == Pins(host, soc)
  }

  lemma {:induction false} LoadKeepsPins(b: Board, entries: seq<string>)
    requires WellWired(b)
    ensures var t := Load(b, entries).board;
            WellWired(t) && t.wires.Keys == b.wires.Keys && t.kind == b.kind && t.level == b.level
    ensures Load(b, entries).threw <==> exists e :: e in entries && Parse(e).OutOfRange?
  {
    if entries != [] {
      var before, e := entries[..|entries| - 1], entries[|entries| - 1];
      LoadKeepsPins(b, before);
      assert entries == before + [e];
      if Parse(e).Pins? {
        LinkKeepsWellWired(Load(b, before).board, Parse(e).host, Parse(e).soc);
      }
    }
  }

  // Without an entry out of range, the loop leaves a wire between a host pin and a SoC pin exactly
  // if they were wired before or some entry names them and both exist.
  lemma {:induction false} ConfigurationMeaning(b: Board, entries: seq<string>, host: nat, soc: nat)
    requires WellWired(b) && forall e :: e in entries ==> !Parse(e).OutOfRange?
    ensures var h, s := PinId(Host, host), PinId(Soc, soc);
            Wired(Load(b, entries).board, h, s) <==>
            Wired(b, h, s) || (Listed(entries, host, soc) && h in b.wires && s in b.wires)
  {
    if entries != [] {
      var before, e := entries[..|entries| - 1], entries[|entries| - 1];
      assert entries == before + [e];
      ConfigurationMeaning(b, before, host, soc);
      LoadKeepsPins(b, before);
      assert Listed(entries, host, soc) <==> Listed(before, host, soc) || Parse(e) == Pins(host, soc);
      if Parse(e).Pins? {
        LinkWires(Load(b, before).board, Parse(e).host, Parse(e).soc, PinId(Host, host), PinId(Soc, soc));
      }
    }
  }

  // As neighbour sets the result does not depend on the order or the repetition of the entries.
  lemma OrderDoesNotMatter(b: Board, entries: seq<string>, others: seq<string>, x: PinId, y: PinId)
    requires WellWired(b) && forall e :: e in entries ==> !Parse(e).OutOfRange?
    requires forall e :: e in entries <==> e in others
    ensures Wired(Load(b, entries).board, x, y) <==> Wired(Load(b, others).board, x, y)
  {
    LoadKeepsPins(b, entries);
    LoadKeepsPins(b, others);
    if x.side != y.side {
      var h, s := if x.side.Host? then x else y, if x.side.Host? then y else x;
      ConfigurationMeaning(b, entries, h.idx, s.idx);
      ConfigurationMeaning(b, others, h.idx, s.idx);
    }
  }

  // With an entry out of range the constructor of the system fails: what it has wired until then
  // is what the entries before the first such entry mean.
  lemma LoadStops(b: Board, entries: seq<string>, k: nat)
    requires k < |entries| && Parse(entries[k]).OutOfRange?
    requires forall i :: 0 <= i < k ==> !Parse(entries[i]).OutOfRange?
    ensures Load(b, entries) == Loaded(Load(b, entries[..k]).board, true)
  {
    NoThrow(b, entries[..k]);
    LoadThrows(b, entries, k);
  }

  lemma {:induction false} NoThrow(b: Board, entries: seq<string>)
    requires forall i :: 0 <= i < |entries| ==> !Parse(entries[i]).OutOfRange?
    ensures !Load(b, entries).threw
  {
    if entries != [] {
      NoThrow(b, entries[..|entries| - 1]);
    }
  }

  lemma {:induction false} LoadThrows(b: Board, entries: seq<string>, k: nat)
    requires k < |entries| && Parse(entries[k]).OutOfRange? && !Load(b, entries[..k]).threw
    ensures Load(b, entries) == Load(b, entries[..k]).(threw := true)
  {
    if k == |entries| - 1 {
    } else {
      assert entries[..|entries| - 1][..k] == entries[..k];
      LoadThrows(b, entries[..|entries| - 1], k);
    }
  }

  // The connections that the loop makes, in order, as commands on the board.
  function Commands(entries: seq<string>): seq<Command> {
    if entries == [] || Parse(entries[0]).OutOfRange? then []
    else if Parse(entries[0]).Pins?
    then [Command.Connect(Parse(entries[0]).host, Parse(entries[0]).soc)] + Commands(entries[1..])
    else Commands(entries[1..])
  }

  lemma {:induction false} CommandsSnoc(entries: seq<string>, e: string)
    requires forall k :: 0 <= k < |entries| ==> !Parse(entries[k]).OutOfRange?
    ensures Commands(entries + [e]) ==
            Commands(entries) + (if Parse(e).Pins? then [Command.Connect(Parse(e).host, Parse(e).soc)] else [])
  {
    if entries == [] {
      assert Commands([e][1..]) == [];
    } else {
      assert (entries + [e])[1..] == entries[1..] + [e];
      CommandsSnoc(entries[1..], e);
    }
  }

  lemma {:induction false} CommandsStop(entries: seq<string>, k: nat)
    requires k < |entries| && Parse(entries[k]).OutOfRange?
    ensures Commands(entries) == Commands(entries[..k])
  {
    if k > 0 && !Parse(entries[0]).OutOfRange? {
      CommandsStop(entries[1..], k - 1);
      assert entries[1..][..k - 1] == entries[..k][1..];
    }
  }

  // The loop runs exactly these commands.
  lemma {:induction false} LoadRunsCommands(b: Board, entries: seq<string>)
    ensures Load(b, entries).board == Run(b, Commands(entries))
  {
    if entries != [] {
      hide Run, Do, Parse, Commands;
      var before, e := entries[..|entries| - 1], entries[|entries| - 1];
      LoadRunsCommands(b, before);
      assert entries == before + [e];
      if k :| 0 <= k < |before| && Parse(before[k]).OutOfRange? {
        CommandsStop(entries, k);
        CommandsStop(before, k);
        assert entries[..k] == before[..k];
        ThrowStays(b, before, k);
      } else {
        NoThrow(b, before);
        CommandsSnoc(before, e);
        LoadRunsOne(Run(b, Commands(before)), b, Commands(before), e);
      }
    }
  }

  // One round of the loop.
  lemma LoadRunsOne(t: Board, b: Board, commands: seq<Command>, e: string)
    requires t == Run(b, commands)
    ensures Run(b, commands + (if Parse(e).Pins? then [Command.Connect(Parse(e).host, Parse(e).soc)] else []))
            == (if Parse(e).Pins? then Link(t, Parse(e).host, Parse(e).soc) else t)
  {
    hide Run, Parse;
    if Parse(e).Pins? {
      RunSnoc(b, commands, Command.Connect(Parse(e).host, Parse(e).soc));
    } else {
      assert commands + [] == commands;
    }
  }

  lemma {:induction false} ThrowStays(b: Board, entries: seq<string>, k: nat)
    requires k < |entries| && Parse(entries[k]).OutOfRange?
    ensures Load(b, entries).threw
  {
    if k < |entries| - 1 {
      ThrowStays(b, entries[..|entries| - 1], k);
    }
  }
}
