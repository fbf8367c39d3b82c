/** Conversions of a raw argument string into a typed value (`FromArg`):
    strings, booleans, the integer types, and the `Option` and `Vec`
    combinators over any conversion. */
module FromArg {

  import opened Wrappers
  import opened Errors
  import opened Text

  /** `String::from_arg`: the text itself, never an error. */
  function StringFromArg(arg: string): (r: Result<string, ParseError>)
    ensures r.Success? && r.value == arg
  {
    Success(arg)
  }

  const TrueWords: set<string> := {"true", "1", "yes", "on"}
  const FalseWords: set<string> := {"false", "0", "no", "off"}

  /** `bool::from_arg`: a case-insensitive table of eight keywords. */
  function BoolFromArg(arg: string): (r: Result<bool, ParseError>)
    ensures r == Success(true) <==> Lower(arg) in TrueWords
    ensures r == Success(false) <==> Lower(arg) in FalseWords
    ensures r.Failure? <==> Lower(arg) !in TrueWords + FalseWords
    ensures r.Failure? ==> r.error == InvalidValue("Cannot parse '" + arg + "' as bool")
  {
    var l := Lower(arg);
    if l == "true" || l == "1" || l == "yes" || l == "on" then Success(true)
    else if l == "false" || l == "0" || l == "no" || l == "off" then Success(false)
    else Failure(InvalidValue("Cannot parse '" + arg + "' as bool"))
  }

  /** Case does not matter: texts with the same lowercase form convert alike. */
  lemma BoolFromArgIgnoresCase(a: string, b: string)
    requires Lower(a) == Lower(b)
    ensures BoolFromArg(a).Success? <==> BoolFromArg(b).Success?
    ensures BoolFromArg(a).Success? ==> BoolFromArg(a) == BoolFromArg(b)
  {
  }

  /** The two spellings `bool` is displayed with convert back to it. */
  lemma BoolDisplayRoundTrip(b: bool)
    ensures BoolFromArg(if b then "true" else "false") == Success(b)
  {
    assert Lower("true") == "true";
    assert Lower("false") == "false";
  }

  /** Keywords are matched whatever their case. */
  lemma BoolAnyCase()
    ensures BoolFromArg("TRUE") == Success(true)
    ensures BoolFromArg("Off") == Success(false)
  {
    assert Lower("TRUE") == "true";
    assert Lower("Off") == "off";
  }

  /** Any other text is refused with a message quoting it. */
  lemma BoolRefusesOtherWords()
    ensures BoolFromArg("maybe") == Failure(InvalidValue("Cannot parse 'maybe' as bool"))
  {
    assert Lower("maybe") == "maybe";
    assert "Cannot parse '" + "maybe" + "' as bool" == "Cannot parse 'maybe' as bool";
  }

  // ---------------------------------------------------------------------
  // Integers

  /** The integer types with a conversion; `isize`/`usize` are taken as 64-bit. */
  datatype IntType = I8 | I16 | I32 | I64 | Isize | U8 | U16 | U32 | U64 | Usize
  {
    function Name(): string {
      match this
      case I8 => "i8" case I16 => "i16" case I32 => "i32" case I64 => "i64"
      case Isize => "isize"
      case U8 => "u8" case U16 => "u16" case U32 => "u32" case U64 => "u64"
      case Usize => "usize"
    }

    predicate Signed() { I8? || I16? || I32? || I64? || Isize? }

    /** The smallest value of the type (`MIN`). */
    function Min(): int {
      match this
      case I8 => -0x80
      case I16 => -0x8000
      case I32 => -0x8000_0000
      case I64 => -0x8000_0000_0000_0000
      case Isize => -0x8000_0000_0000_0000
      case _ => 0
    }

    /** The largest value of the type (`MAX`). */
    function Max(): int {
      match this
      case I8 => 0x7F
      case I16 => 0x7FFF
      case I32 => 0x7FFF_FFFF
      case I64 => 0x7FFF_FFFF_FFFF_FFFF
      case Isize => 0x7FFF_FFFF_FFFF_FFFF
      case U8 => 0xFF
      case U16 => 0xFFFF
      case U32 => 0xFFFF_FFFF
      case U64 => 0xFFFF_FFFF_FFFF_FFFF
      case Usize => 0xFFFF_FFFF_FFFF_FFFF
    }
  }

  predicate IsDigit(c: char) { '0' <= c <= '9' }

  predicate AllDigits(s: string) { forall i :: 0 <= i < |s| ==> IsDigit(s[i]) }

  /** Decimal value of a digit string, most significant digit first. */
  function DigitsValue(s: string): nat
    requires AllDigits(s)
  {
    if s == [] then 0
    else 10 * DigitsValue(s[..|s| - 1]) + (s[|s| - 1] as int - '0' as int)
  }

  /** Rust's `str::parse` for an integer type: an optional `+` (or `-` for a
      signed type), at least one decimal digit, and a value in range. */
  function ParseInt(s: string, ty: IntType): (r: Option<int>)
    ensures r.Some? ==> ty.Min() <= r.value <= ty.Max()
    ensures r.Some? ==> s != [] && (s[0] == '-' ==> ty.Signed())
  {
    if s == [] || (|s| == 1 && (s[0] == '+' || s[0] == '-')) then None
    else
      var negative := s[0] == '-' && ty.Signed();
      var digits := if s[0] == '+' || negative then s[1..] else s;
      if !AllDigits(digits) then None
      else
        var v := if negative then -(DigitsValue(digits) as int) else DigitsValue(digits);
        if ty.Min() <= v <= ty.Max() then Some(v) else None
  }

  /** `from_arg` for an integer type: the parsed value, or an error naming
      the text and the type. */
  function IntFromArg(arg: string, ty: IntType): (r: Result<int, ParseError>)
    ensures r.Success? <==> ParseInt(arg, ty).Some?
    ensures r.Success? ==> ParseInt(arg, ty) == Some(r.value) && ty.Min() <= r.value <= ty.Max()
    ensures r.Failure? ==> r.error == InvalidValue("Cannot parse '" + arg + "' as " + ty.Name())
  {
    match ParseInt(arg, ty)
    case Some(v) => Success(v)
    case None => Failure(InvalidValue("Cannot parse '" + arg + "' as " + ty.Name()))
  }

  /** What `from_arg` makes of a run of decimal digits `d` written bare,
      after `+` and after `-`: the number the digits denote, with the sign
      applied, whenever it fits the type. */
  lemma IntFromDigits(d: string, ty: IntType)
    requires d != [] && AllDigits(d)
    ensures IntFromArg(d, ty) == (if DigitsValue(d) <= ty.Max() then Success(DigitsValue(d) as int)
                                  else Failure(InvalidValue("Cannot parse '" + d + "' as " + ty.Name())))
    ensures IntFromArg("+" + d, ty).Success? <==> IntFromArg(d, ty).Success?
    ensures IntFromArg("+" + d, ty).Success? ==> IntFromArg("+" + d, ty) == IntFromArg(d, ty)
    ensures IntFromArg("-" + d, ty).Success? <==> ty.Signed() && ty.Min() <= -(DigitsValue(d) as int)
    ensures IntFromArg("-" + d, ty).Success? ==> IntFromArg("-" + d, ty) == Success(-(DigitsValue(d) as int))
  {
    ParseBare(d, ty);
    ParseSigned("+" + d, d, ty);
    ParseSigned("-" + d, d, ty);
  }

  lemma MinNotPositive(ty: IntType)
    ensures ty.Min() <= 0
  {}

  lemma ParseBare(d: string, ty: IntType)
    requires d != [] && AllDigits(d)
    ensures ParseInt(d, ty) == (if DigitsValue(d) <= ty.Max() then Some(DigitsValue(d) as int) else None)
  {
    assert d[0] != '+' && d[0] != '-' by { assert IsDigit(d[0]); }
    MinNotPositive(ty);
  }

  lemma ParseSigned(s: string, d: string, ty: IntType)
    requires d != [] && AllDigits(d) && |s| == |d| + 1 && s[1..] == d && (s[0] == '+' || s[0] == '-')
    ensures s[0] == '+' ==> ParseInt(s, ty) == ParseInt(d, ty)
    ensures s[0] == '-' ==> ParseInt(s, ty) == (if ty.Signed() && ty.Min() <= -(DigitsValue(d) as int)
                                                then Some(-(DigitsValue(d) as int)) else None)
  {
    ParseBare(d, ty);
    if s[0] == '-' && !ty.Signed() {
      assert !AllDigits(s) by { assert !IsDigit(s[0]); }
    }
  }

  /** A leading zero does not change the value of a digit string. */
  lemma {:induction false} LeadingZeroIgnored(d: string)
    requires AllDigits(d)
    ensures AllDigits("0" + d) && DigitsValue("0" + d) == DigitsValue(d)
  {
    var z := "0" + d;
    assert AllDigits(z) by { assert forall i :: 1 <= i < |z| ==> z[i] == d[i - 1]; }
    if d == [] {
      assert z[..0] == [];
    } else {
      LeadingZeroIgnored(d[..|d| - 1]);
      assert z[..|z| - 1] == "0" + d[..|d| - 1];
    }
  }

  /** The decimal text of a natural number, as `Display` writes it. */
  function Decimal(n: nat): (s: string)
    ensures s != [] && AllDigits(s)
  {
    if n < 10 then [('0' as int + n) as char]
    else Decimal(n / 10) + [('0' as int + n % 10) as char]
  }

  lemma {:induction false} DecimalValue(n: nat)
    ensures DigitsValue(Decimal(n)) == n
  {
    if n >= 10 {
      DecimalValue(n / 10);
      var s := Decimal(n);
      assert s[..|s| - 1] == Decimal(n / 10);
    }
  }

  /** The text `Display` gives an in-range integer converts back to it. */
  lemma IntDisplayRoundTrip(v: int, ty: IntType)
    requires ty.Min() <= v <= ty.Max()
    ensures IntFromArg(if v < 0 then "-" + Decimal(-v) else Decimal(v), ty) == Success(v)
  {
    if v < 0 {
      DecimalValue(-v);
      var s := "-" + Decimal(-v);
      assert s[1..] == Decimal(-v);
      assert s[0] == '-';
    } else {
      DecimalValue(v);
      var s := Decimal(v);
      assert s[0] != '+' && s[0] != '-' by { assert IsDigit(s[0]); }
    }
  }

  /** An unsigned type refuses a minus sign even before zero; a lone sign is
      refused for every type; a leading plus is accepted. */
  lemma IntSignExamples()
    ensures IntFromArg("5", U8) == Success(5)
    ensures IntFromArg("-0", U8) == Failure(InvalidValue("Cannot parse '-0' as u8"))
    ensures IntFromArg("+7", I32) == Success(7)
    ensures IntFromArg("-", I64).Failure?
    ensures IntFromArg("256", U8).Failure?
  {
    assert IntFromArg("5", U8) == Success(5) by {
      assert DigitsValue("5") == 5 by { assert "5"[..0] == []; }
    }
    assert IntFromArg("-0", U8) == Failure(InvalidValue("Cannot parse '-0' as u8")) by {
      assert !AllDigits("-0") by { assert !IsDigit("-0"[0]); }
      assert "Cannot parse '" + "-0" + "' as " + U8.Name() == "Cannot parse '-0' as u8";
    }
    assert IntFromArg("+7", I32) == Success(7) by {
      assert "+7"[1..] == "7";
      assert DigitsValue("7") == 7 by { assert "7"[..0] == []; }
    }
    assert IntFromArg("256", U8).Failure? by {
      assert DigitsValue("256") == 256 by {
        assert "256"[..2] == "25" && "25"[..1] == "2" && "2"[..0] == [];
      }
    }
  }

  // ---------------------------------------------------------------------
  // Combinators

  /** `Option<T>::from_arg`: the inner conversion wrapped in `Some`, its
      error passed through; `None` is never produced. */
  function OptionFromArg<T>(conv: string -> Result<T, ParseError>, arg: string)
    : (r: Result<Option<T>, ParseError>)
    ensures r.Success? <==> conv(arg).Success?
    ensures r.Success? ==> r.value == Some(conv(arg).value)
    ensures r.Failure? ==> r.error == conv(arg).error
  {
    match conv(arg)
    case Success(v) => Success(Some(v))
    case Failure(e) => Failure(e)
  }

  /** `str::trim` applied to every piece. */
  function TrimAll(pieces: seq<string>): (r: seq<string>)
    ensures |r| == |pieces|
    ensures forall i :: 0 <= i < |pieces| ==> r[i] == Trim(pieces[i])
  {
    if pieces == [] then [] else [Trim(pieces[0])] + TrimAll(pieces[1..])
  }

  /** Index of the first text that fails to convert, or the number of texts
      when none fails. */
  function FirstFailure<T>(conv: string -> Result<T, ParseError>, texts: seq<string>): (k: nat)
    ensures k <= |texts|
    ensures forall i :: 0 <= i < k ==> conv(texts[i]).Success?
    ensures k < |texts| ==> conv(texts[k]).Failure?
  {
    if texts == [] || conv(texts[0]).Failure? then 0
    else
      var k := 1 + FirstFailure(conv, texts[1..]);
      assert forall i :: 1 <= i < k ==> texts[i] == texts[1..][i - 1];
      k
  }

  /** Converts every text, in order, stopping at the first failure
      (`collect` into a `Result`). */
  function ConvertAll<T>(conv: string -> Result<T, ParseError>, texts: seq<string>)
    : (r: Result<seq<T>, ParseError>)
    ensures r.Success? <==> FirstFailure(conv, texts) == |texts|
    ensures r.Success? ==> |r.value| == |texts|
    ensures r.Success? ==> forall i :: 0 <= i < |texts| ==> conv(texts[i]) == Success(r.value[i])
    ensures r.Failure? ==> r.error == conv(texts[FirstFailure(conv, texts)]).error
  {
    if texts == [] then Success([])
    else
      match conv(texts[0])
      case Failure(e) => Failure(e)
      case Success(v) =>
        match ConvertAll(conv, texts[1..])
        case Failure(e) => Failure(e)
        case Success(vs) => Success([v] + vs)
  }

  /** `Vec<T>::from_arg`: split on every comma, trim each piece, convert
      the pieces left to right; the first failing piece gives the error. */
  function VecFromArg<T>(conv: string -> Result<T, ParseError>, arg: string)
    : (r: Result<seq<T>, ParseError>)
    ensures r.Success? ==> |r.value| == |Split(arg, ',')| == Occurrences(arg, ',') + 1
    ensures r.Success? ==> forall i :: 0 <= i < |r.value| ==>
      conv(Trim(Split(arg, ',')[i])) == Success(r.value[i])
    ensures r.Failure? ==>
      var k := FirstFailure(conv, TrimAll(Split(arg, ',')));
      k < |Split(arg, ',')| && r.error == conv(Trim(Split(arg, ',')[k])).error
  {
    SplitCount(arg, ',');
    ConvertAll(conv, TrimAll(Split(arg, ',')))
  }

  /** For strings the conversion cannot fail: the result is the trimmed
      comma-separated pieces. */
  lemma VecOfStrings(arg: string)
    ensures VecFromArg(StringFromArg, arg) == Success(TrimAll(Split(arg, ',')))
  {
    var texts := TrimAll(Split(arg, ','));
    var r := ConvertAll(StringFromArg, texts);
    assert FirstFailure(StringFromArg, texts) == |texts|;
    assert r.value == texts by {
      assert |r.value| == |texts|;
      forall i | 0 <= i < |texts|
        ensures r.value[i] == texts[i]
      {
        assert StringFromArg(texts[i]) == Success(r.value[i]);
      }
    }
  }

  lemma PiecesOfEmptyText()
    ensures TrimAll(Split("", ',')) == [""]
  {
    assert Split("", ',') == [""];
    assert TrimAll([""]) == [""] by { TrimUntouched(""); }
  }

  /** Empty pieces are kept: the empty text is one empty piece. */
  lemma VecOfEmptyText()
    ensures VecFromArg(StringFromArg, "") == Success([""])
  {
    PiecesOfEmptyText();
    VecOfStrings("");
  }

  lemma PiecesWithTrailingComma()
    ensures TrimAll(Split("a,", ',')) == ["a", ""]
  {
    assert Split("a,", ',') == ["a", ""] by {
      assert FirstIndex("a,", ',') == 1;
      assert "a,"[2..] == "" && "a,"[..1] == "a";
      assert Split("", ',') == [""];
    }
    assert TrimAll(["a", ""]) == ["a", ""] by {
      TrimUntouched("a");
      TrimUntouched("");
      TrimAllPair("a", "");
    }
  }

  /** A trailing comma adds an empty piece. */
  lemma VecTrailingComma()
    ensures VecFromArg(StringFromArg, "a,") == Success(["a", ""])
  {
    PiecesWithTrailingComma();
    VecOfStrings("a,");
  }

  lemma SplitSpacedPair()
    ensures Split(" a , b", ',') == [" a ", " b"]
  {
    assert FirstIndex(" a , b", ',') == 3 by {
      assert " a , b"[1..] == "a , b" && "a , b"[1..] == " , b" && " , b"[1..] == ", b";
    }
    assert " a , b"[4..] == " b" && " a , b"[..3] == " a ";
    assert Split(" b", ',') == [" b"] by {
      assert FirstIndex(" b", ',') == 2 by { assert " b"[1..] == "b" && "b"[1..] == ""; }
    }
  }

  lemma TrimSpacedPieces()
    ensures Trim(" a ") == "a" && Trim(" b") == "b"
  {
    TrimBothEnds();
    TrimLeadingOnly();
  }

  lemma TrimBothEnds()
    ensures Trim(" a ") == "a"
  {
    assert TrimStart(" a ") == "a " by {
      TrimStartStep(" a ");
      assert " a "[1..] == "a ";
      TrimStartStep("a ");
    }
    assert TrimEnd("a ") == "a" by {
      TrimEndStep("a ");
      assert "a "[..1] == "a";
      TrimEndStep("a");
    }
  }

  lemma TrimLeadingOnly()
    ensures Trim(" b") == "b"
  {
    assert TrimStart(" b") == "b" by {
      TrimStartStep(" b");
      assert " b"[1..] == "b";
      TrimStartStep("b");
    }
    assert TrimEnd("b") == "b" by {
      TrimEndStep("b");
    }
  }

  lemma PiecesTrimmed()
    ensures TrimAll(Split(" a , b", ',')) == ["a", "b"]
  {
    SplitSpacedPair();
    TrimSpacedPieces();
    TrimAllPair(" a ", " b");
  }

  lemma TrimAllPair(x: string, y: string)
    ensures TrimAll([x, y]) == [Trim(x), Trim(y)]
  {
  }

  /** Pieces are trimmed before conversion. */
  lemma VecTrimsPieces()
    ensures VecFromArg(StringFromArg, " a , b") == Success(["a", "b"])
  {
    PiecesTrimmed();
    VecOfStrings(" a , b");
  }
}
