/** The supported currencies, their codes and display symbols. */
module Currencies {
  import opened Wrappers
  import Json

  datatype Currency = RUB | USD | EUR | CNY | CZK

  /** The enum member's string value. */
  function Code(c: Currency): string {
    match c
    case RUB => "RUB"
    case USD => "USD"
    case EUR => "EUR"
    case CNY => "CNY"
    case CZK => "CZK"
  }

  /** `Object.values(Currency)`: the enum object's values in declaration order. */
  const EnumObjectValues: seq<Json.Value> :=
    [Json.Str("RUB"), Json.Str("USD"), Json.Str("EUR"), Json.Str("CNY"), Json.Str("CZK")]

  /** Keeps the string values, as the `typeof v === 'string'` filter does. */
  function StringValues(vs: seq<Json.Value>): (r: seq<string>)
    ensures |r| <= |vs|
    ensures forall i :: 0 <= i < |r| ==> Json.Str(r[i]) in vs
  {
    if |vs| == 0 then []
    else if vs[0].Str? then [vs[0].s] + StringValues(vs[1..])
    else StringValues(vs[1..])
  }

  /** `CurrencyValues`: the codes accepted for an account's currency. */
  function CurrencyValues(): seq<string> {
    StringValues(EnumObjectValues)
  }

  /** The enum member whose value is `s`, if any (the `@IsEnum(Currency)` check). */
  function FromCode(s: string): (r: Option<Currency>)
    ensures r.Some? ==> Code(r.value) == s
    ensures forall c :: Code(c) == s ==> r == Some(c)
  {
    if s == "RUB" then Some(RUB)
    else if s == "USD" then Some(USD)
    else if s == "EUR" then Some(EUR)
    else if s == "CNY" then Some(CNY)
    else if s == "CZK" then Some(CZK)
    else None
  }

  /** The filter keeps all five codes of the enum object, in declaration order. */
  lemma CurrencyValuesInOrder()
    ensures CurrencyValues() == CodeList
  {
    var vs := EnumObjectValues;
    assert StringValues(vs[5..]) == [];
    assert StringValues(vs[4..]) == ["CZK"];
    assert StringValues(vs[3..]) == ["CNY", "CZK"];
    assert StringValues(vs[2..]) == ["EUR", "CNY", "CZK"];
    assert StringValues(vs[1..]) == ["USD", "EUR", "CNY", "CZK"];
  }

  /** `CurrencyValues` lists every currency's code once, and nothing else. */
  lemma CurrencyValuesExact()
    ensures |CurrencyValues()| == 5
    ensures forall c :: Code(c) in CurrencyValues()
    ensures forall s :: s in CurrencyValues() <==> FromCode(s).Some?
    ensures forall i, j :: 0 <= i < j < |CurrencyValues()| ==> CurrencyValues()[i] != CurrencyValues()[j]
  {
    CurrencyValuesInOrder();
    CodeListCoversEnum();
    CodeListParses();
    CodeListDistinct();
  }

  /** The codes in declaration order. */
  const CodeList: seq<string> := ["RUB", "USD", "EUR", "CNY", "CZK"]

  lemma CodeListCoversEnum()
    ensures forall c :: Code(c) in CodeList
  {
    forall c ensures Code(c) in CodeList {
      match c
      case RUB => assert CodeList[0] == Code(c);
      case USD => assert CodeList[1] == Code(c);
      case EUR => assert CodeList[2] == Code(c);
      case CNY => assert CodeList[3] == Code(c);
      case CZK => assert CodeList[4] == Code(c);
    }
  }

  lemma CodeListParses()
    ensures forall s :: s in CodeList <==> FromCode(s).Some?
  {
    forall s ensures s in CodeList <==> FromCode(s).Some? {
      if FromCode(s).Some? {
        CodeListCoversEnum();
        assert Code(FromCode(s).value) == s;
      }
    }
  }

  lemma CodeListDistinct()
    ensures forall i, j :: 0 <= i < j < |CodeList| ==> CodeList[i] != CodeList[j]
  {
    forall i, j | 0 <= i < j < |CodeList| ensures CodeList[i] != CodeList[j] {
      assert CodeList[i] in CodeList;
      CodeListParses();
      assert FromCode(CodeList[i]).Some?;
    }
  }

  /** The `SYMBOLS` record, keyed by currency code. */
  const Symbols: map<string, string> :=
    map["RUB" := "\U{20BD}", "USD" := "$", "EUR" := "\U{20AC}", "CNY" := "\U{00A5}", "CZK" := "K\U{010D}"]

  datatype CurrencyError = Unsupported(code: string)

  /**
   * The property names every object literal inherits from `Object.prototype`. Looking one
   * of them up in `SYMBOLS` finds an inherited member (a method, or the prototype itself
   * for `__proto__`), which is truthy.
   */
  const PrototypeKeys: set<string> := {
    "constructor", "__proto__", "hasOwnProperty", "isPrototypeOf", "propertyIsEnumerable",
    "toLocaleString", "toString", "valueOf",
    "__defineGetter__", "__defineSetter__", "__lookupGetter__", "__lookupSetter__"}

  /** What `SYMBOLS[code]` evaluates to when it is truthy: an own symbol string or an inherited member. */
  datatype Symbol = Glyph(text: string) | Inherited(key: string)

  /**
   * `getSymbol`: the value of `SYMBOLS[code]`, or an error when it is falsy. The parameter
   * is a code string because the enum type is erased at run time.
   */
  function GetSymbol(code: string): (r: Result<Symbol, CurrencyError>)
    ensures r.Success? <==> FromCode(code).Some? || code in PrototypeKeys
    ensures r.Success? && r.value.Glyph? <==> FromCode(code).Some?
    ensures r.Success? && r.value.Glyph? ==> r.value.text != ""
    ensures r.Success? && r.value.Inherited? ==> r.value.key == code
    ensures r.Failure? ==> r.error == Unsupported(code)
  {
    if code in Symbols && Symbols[code] != "" then Success(Glyph(Symbols[code]))
    else if code in PrototypeKeys then Success(Inherited(code))
    else Failure(Unsupported(code))
  }

  /** The symbol table covers every currency, and no two currencies share a symbol. */
  lemma SymbolsTotalAndDistinct(a: Currency, b: Currency)
    ensures GetSymbol(Code(a)).Success? && GetSymbol(Code(a)).value.Glyph?
    ensures a != b ==> GetSymbol(Code(a)).value != GetSymbol(Code(b)).value
  {
  }

  /** An inherited property name is no currency, yet `getSymbol` returns instead of throwing. */
  lemma PrototypeKeyIsNotRefused()
    ensures FromCode("toString").None?
    ensures GetSymbol("toString") == Success(Inherited("toString"))
  {
  }

  /**
   * `formatAmount`: the symbol followed by the locale rendering of the amount.
   * `render` stands for `toLocaleString` with two fraction digits, and `show` for the
   * template literal's string conversion of an inherited member.
   */
  function FormatAmount(amount: int, code: string, render: int -> string, show: string -> string)
    : (r: Result<string, CurrencyError>)
    ensures r.Success? <==> FromCode(code).Some? || code in PrototypeKeys
    ensures FromCode(code).Some? ==>
      var symbol := GetSymbol(code).value.text;
      && r.Success? && |symbol| <= |r.value| && r.value[..|symbol|] == symbol
      && r.value[|symbol|..] == render(amount)
    ensures FromCode(code).None? && code in PrototypeKeys ==> r == Success(show(code) + render(amount))
    ensures r.Failure? ==> r == Failure(Unsupported(code))
  {
    match GetSymbol(code)
    case Failure(e) => Failure(e)
    case Success(Glyph(symbol)) => Success(symbol + render(amount))
    case Success(Inherited(key)) => Success(show(key) + render(amount))
  }
}
