/** OptionsIn strings: printing on the client, parsing on the store, and that the one undoes the other. */
module Options {
  import opened Order
  import opened Text

  /** What a keyword argument can hold. */
  datatype Value = Absent | Str(s: string) | Enum(value: string) | Bool(b: bool) | Number(n: int)

  function Digits(n: nat): (s: string)
    ensures |s| >= 1 && forall i :: 0 <= i < |s| ==> '0' <= s[i] <= '9'
  {
    var last := ['0' + (n % 10) as char];
    if n < 10 then last else Digits(n / 10) + last
  }

  function Decimal(n: int): string {
    if n < 0 then "-" + Digits(-n) else Digits(n)
  }

  /** The text of a value that is present. */
  function Rendered(v: Value): string
    requires !v.Absent?
  {
    match v
    case Str(s) => s
    case Enum(value) => value
    case Bool(b) => if b then "true" else "false"
    case Number(n) => Decimal(n)
  }

  function Parts(args: seq<(string, Value)>): seq<string> {
    if args == [] then [] else
      var front := Parts(args[..|args| - 1]);
      var (key, value) := args[|args| - 1];
      if value.Absent? then front else front + [key + "=" + Rendered(value)]
  }

  /** `options_in`. */
  method OptionsIn(args: seq<(string, Value)>) returns (s: string)
    ensures s == Join(Parts(args), ';')
  {
    var parts: seq<string> := [];
    for i := 0 to |args|
      invariant parts == Parts(args[..i])
    {
      assert args[..i + 1][..i] == args[..i];
      var (key, value) := args[i];
      if !value.Absent? {
        parts := parts + [key + "=" + Rendered(value)];
      }
    }
    assert args[..|args|] == args;
    s := Join(parts, ';');
  }

  function AddPiece(m: map<string, string>, piece: string): map<string, string> {
    var part := Strip(piece);
    var n := FirstOf(part, '=');
    if n == |part| then m else m[Lower(Strip(part[..n])) := Strip(part[n + 1..])]
  }

  function AddPieces(m: map<string, string>, pieces: seq<string>): map<string, string> {
    if pieces == [] then m else AddPiece(AddPieces(m, pieces[..|pieces| - 1]), pieces[|pieces| - 1])
  }

  /** What the store understands of an OptionsIn string. */
  function Parsed(options: Option<string>): map<string, string> {
    if options.None? || options.value == "" then map[] else AddPieces(map[], Split(options.value, ';'))
  }

  /** `parse_options`. */
  method ParseOptions(options: Option<string>) returns (out: map<string, string>)
    ensures out == Parsed(options)
  {
    out := map[];
    if options.None? || options.value == "" {
      return;
    }
    var pieces := Split(options.value, ';');
    for i := 0 to |pieces|
      invariant out == AddPieces(map[], pieces[..i])
    {
      assert pieces[..i + 1][..i] == pieces[..i];
      var part := Strip(pieces[i]);
      HasEquals(part);
      if part == "" || '=' !in part {
        continue;
      }
      var n := FirstOf(part, '=');
      out := out[Lower(Strip(part[..n])) := Strip(part[n + 1..])];
    }
    assert pieces[..|pieces|] == pieces;
  }

  lemma HasEquals(s: string)
    ensures '=' in s <==> FirstOf(s, '=') < |s|
  {
    var n := FirstOf(s, '=');
    if n == |s| {
      assert s[..n] == s;
    }
  }

  // ---- printing, then parsing ----------------------------------------------------------------

  predicate GoodKey(key: string) {
    Trimmed(key) && ';' !in key && '=' !in key
  }

  predicate GoodValue(v: Value) {
    !v.Absent? ==> Trimmed(Rendered(v)) && ';' !in Rendered(v)
  }

  /** What parsing should give back: lower-cased keys, absent arguments dropped, the last of equal keys. */
  function Expected(args: seq<(string, Value)>): map<string, string> {
    if args == [] then map[] else
      var front := Expected(args[..|args| - 1]);
      var (key, value) := args[|args| - 1];
      if value.Absent? then front else front[Lower(key) := Rendered(value)]
  }

  ghost predicate Printable(args: seq<(string, Value)>) {
    forall i :: 0 <= i < |args| ==> GoodKey(args[i].0) && GoodValue(args[i].1)
  }

  lemma PieceParses(m: map<string, string>, key: string, value: string)
    requires GoodKey(key) && Trimmed(value)
    ensures AddPiece(m, key + "=" + value) == m[Lower(key) := value]
  {
    var piece := key + "=" + value;
    assert piece[0] == (if key == "" then '=' else key[0]);
    assert piece[|piece| - 1] == (if value == "" then '=' else value[|value| - 1]);
    StripTrimmed(piece);
    assert piece == key + ['='] + value;
    FirstOfAt(key, '=', value);
    assert piece[..|key|] == key && piece[|key| + 1..] == value;
    StripTrimmed(key);
    StripTrimmed(value);
  }

  lemma {:induction false} PartsParse(args: seq<(string, Value)>)
    requires Printable(args)
    ensures AddPieces(map[], Parts(args)) == Expected(args)
    ensures forall i :: 0 <= i < |Parts(args)| ==> ';' !in Parts(args)[i]
    ensures Parts(args) != [] ==> Parts(args)[0] != ""
  {
    if args != [] {
      var n := |args| - 1;
      PartsParse(args[..n]);
      var (key, value) := args[n];
      if !value.Absent? {
        var front, piece := Parts(args[..n]), key + "=" + Rendered(value);
        PieceParses(Expected(args[..n]), key, Rendered(value));
        assert (front + [piece])[..|front|] == front;
      }
    }
  }

  /** A value survives with its '=' signs; a key survives lower-cased. */
  lemma ParseUndoesPrint(args: seq<(string, Value)>)
    requires Printable(args)
    ensures Parsed(Some(Join(Parts(args), ';'))) == Expected(args)
  {
    PartsParse(args);
    var parts := Parts(args);
    if parts != [] {
      SplitJoin(parts, ';');
      assert Join(parts, ';') != "";
    }
  }

  /** The documented example of printing. */
  lemma DocumentedOptions()
    ensures Join(Parts([("returnElements", Enum("data-only")), ("maxReturnNodes", Number(1000))]), ';') ==
            "returnElements=data-only;maxReturnNodes=1000"
  {
    var a, b := ("returnElements", Enum("data-only")), ("maxReturnNodes", Number(1000));
    Thousand();
    PartsStep([], a);
    PartsStep([a], b);
    hide *;
    assert [] + [a] == [a] && [a] + [b] == [a, b];
    var first, second := "returnElements=data-only", "maxReturnNodes=1000";
    assert a.0 + "=" + "data-only" == first;
    assert b.0 + "=" + "1000" == second;
    assert Parts([a]) == [first];
    assert Parts([a, b]) == [first] + [second];
    JoinStep(first, ';', [second]);
    JoinOne(second, ';');
  }

  lemma Thousand()
    ensures Rendered(Number(1000)) == "1000" && Rendered(Enum("data-only")) == "data-only"
  {
    assert Digits(1) == "1";
    assert Digits(10) == Digits(1) + "0";
    assert Digits(100) == Digits(10) + "0";
    assert Digits(1000) == Digits(100) + "0";
  }

  lemma PartsStep(args: seq<(string, Value)>, arg: (string, Value))
    ensures Parts([]) == []
    ensures Parts(args + [arg]) ==
            Parts(args) + if arg.1.Absent? then [] else [arg.0 + "=" + Rendered(arg.1)]
  {
    assert (args + [arg])[..|args|] == args;
  }

  /** The number a row of decimal digits stands for. */
  function NumberOf(digits: string): int {
    if digits == "" then 0
    else 10 * NumberOf(digits[..|digits| - 1]) + (digits[|digits| - 1] as int - '0' as int)
  }

  /** How a text stands for an argument: as it is, as one of two words, or as a signed decimal number. */
  predicate Denotes(text: string, v: Value) {
    match v
    case Absent => false
    case Str(s) => text == s
    case Enum(value) => text == value
    case Bool(b) => text == if b then "true" else "false"
    case Number(n) =>
      if n < 0 then text != "" && text[0] == '-' && NumberOf(text[1..]) == -n else NumberOf(text) == n
  }

  lemma {:induction false} DigitsMeaning(n: nat)
    ensures NumberOf(Digits(n)) == n
  {
    var last := ['0' + (n % 10) as char];
    if n >= 10 {
      DigitsMeaning(n / 10);
      assert Digits(n)[..|Digits(n)| - 1] == Digits(n / 10);
    } else {
      assert last[..0] == "";
    }
  }

  lemma RenderedMeaning(v: Value)
    requires !v.Absent?
    ensures Denotes(Rendered(v), v)
  {
    if v.Number? {
      DigitsMeaning(if v.n < 0 then -v.n else v.n);
      if v.n < 0 {
        assert ("-" + Digits(-v.n))[1..] == Digits(-v.n);
      }
    }
  }

  /** With keys that stay distinct when lower-cased, every present argument is found under its lower-cased key. */
  lemma {:induction false} ExpectedFinds(args: seq<(string, Value)>, key: string)
    requires forall i, j :: 0 <= i < j < |args| ==> Lower(args[i].0) != Lower(args[j].0)
    ensures key in Expected(args) <==> exists i :: 0 <= i < |args| && Lower(args[i].0) == key && !args[i].1.Absent?
    ensures forall i :: 0 <= i < |args| && Lower(args[i].0) == key && !args[i].1.Absent? ==>
                          key in Expected(args) && Denotes(Expected(args)[key], args[i].1)
  {
    hide Denotes, Rendered, Lower;
    if args != [] {
      var n := |args| - 1;
      var front := args[..n];
      ExpectedFinds(front, key);
      if !args[n].1.Absent? {
        RenderedMeaning(args[n].1);
      }
      assert forall i :: 0 <= i < n ==> front[i] == args[i];
      if i :| 0 <= i < |front| && Lower(front[i].0) == key && !front[i].1.Absent? {
        assert args[i] == front[i];
      }
    }
  }
}
