/** The serverless entry point `exports.handler`: it reads four query
    string parameters, fills in defaults, runs the generator and wraps its
    result in a 200 response. */
module Handler {
  import opened Decimal
  import opened JsParseInt
  import opened Generator

  /** A query string parameter: absent (`undefined`) or a string. */
  datatype Option<T> = None | Some(value: T)

  datatype QueryParameters = QueryParameters(
    location: Option<string>,
    usermsg: Option<string>,
    nRestaurants: Option<string>,
    nItems: Option<string>)

  /** The generator's arguments after defaulting. */
  datatype Request = Request(location: string, usermsg: string, nRestaurants: int, nItems: int)

  /** The response body before `JSON.stringify`. `Error` stands for the
      body of the 500 branch, which the model never takes. */
  datatype Body = Restaurants(restaurants: seq<Restaurant>) | Error(message: string)

  datatype Response = Response(statusCode: nat, body: Body)

  const DefaultLocation: string := "Palo Alto, CA"
  const DefaultUsermsg: string := "chinese"
  const DefaultCount: int := 5

  /** `p || fallback` for a parameter that is a string or `undefined`: the
      falsy values among those are `undefined` and the empty string. */
  function StringOr(p: Option<string>, fallback: string): (r: string)
    ensures p.Some? && p.value != "" ==> r == p.value
    ensures p.None? || p.value == "" ==> r == fallback
    ensures fallback != "" ==> r != ""
  {
    if p.Some? && p.value != "" then p.value else fallback
  }

  /** What `parseInt` receives for a parameter: `ToString(undefined)` is the
      text `"undefined"`. */
  function JsToString(p: Option<string>): string {
    match p
    case None => "undefined"
    case Some(s) => s
  }

  /** `v || fallback` for the number `parseInt` returned: NaN and zero are
      falsy, every other number is kept, negative ones included. */
  function NumberOr(v: ParsedInt, fallback: int): (r: int)
    ensures v == NaN || v == Integer(0) ==> r == fallback
    ensures v.Integer? && v.value != 0 ==> r == v.value
  {
    match v
    case NaN => fallback
    case Integer(n) => if n == 0 then fallback else n
  }

  /** `parseInt(p, 10) || 5`. */
  function CountParameter(p: Option<string>): (n: int)
    ensures n != 0
  {
    NumberOr(ParseInt(JsToString(p)), DefaultCount)
  }

  /** The four assignments before the `try` of the handler. */
  function RequestOf(params: QueryParameters): (req: Request)
    ensures req.location != "" && req.usermsg != ""
    ensures req.nRestaurants != 0 && req.nItems != 0
  {
    Request(
      StringOr(params.location, DefaultLocation),
      StringOr(params.usermsg, DefaultUsermsg),
      CountParameter(params.nRestaurants),
      CountParameter(params.nItems))
  }

  /** The handler: status 200 and a body holding exactly the generator's
      result for the defaulted parameters. The generator cannot fail in the
      model, so the 500 branch is never taken. */
  method Handle(params: QueryParameters, price: (nat, nat) -> Price) returns (response: Response)
    ensures var req := RequestOf(params);
      response == Response(200, Restaurants(DummyData(req.location, req.usermsg, req.nRestaurants, req.nItems, price)))
  {
    var req := RequestOf(params);
    var restaurants := GenerateDummyData(req.location, req.usermsg, req.nRestaurants, req.nItems, price);
    response := Response(200, Restaurants(restaurants));
  }

  /** A string parameter falls back to its default exactly when it is
      absent or empty; any other value, the default's own text included,
      passes through unchanged. */
  lemma StringDefaulting(p: Option<string>, fallback: string)
    requires fallback != ""
    ensures StringOr(p, fallback) == fallback <==> p.None? || p.value == "" || p.value == fallback
    ensures StringOr(Some(StringOr(p, fallback)), fallback) == StringOr(p, fallback)
  {
  }

  /** A count given as the decimal text of a number is that number, except
      that zero falls back to 5. */
  lemma CountOfDecimal(n: nat)
    ensures CountParameter(Some(NatToString(n))) == if n == 0 then DefaultCount else n
  {
    ParseIntOfNatToString(n);
  }

  /** A negative count is kept, not defaulted, and the generator then
      produces no restaurants (or, for `n_items`, empty menus). */
  lemma NegativeCountKept(n: nat, location: string, usermsg: string, nRestaurants: int, nItems: int, price: (nat, nat) -> Price)
    requires n > 0
    ensures CountParameter(Some("-" + NatToString(n))) == -(n as int)
    ensures DummyData(location, usermsg, CountParameter(Some("-" + NatToString(n))), nItems, price) == []
    ensures forall r :: r in DummyData(location, usermsg, nRestaurants, CountParameter(Some("-" + NatToString(n))), price) ==> r.menu == []
  {
    ParseIntOfNegatedNatToString(n);
    var count := CountParameter(Some("-" + NatToString(n)));
    assert count == -(n as int);
    DummyDataShape(location, usermsg, count, nItems, price);
    DummyDataShape(location, usermsg, nRestaurants, count, price);
  }

  /** Sample counts that `parseInt` reads as a nonzero number, which the
      handler keeps: `"3"`, `"12abc"`, `"-2"` and `" 7"`. */
  lemma CountExamplesKept()
    ensures CountParameter(Some("3")) == 3
    ensures CountParameter(Some("12abc")) == 12
    ensures CountParameter(Some("-2")) == -2
    ensures CountParameter(Some(" 7")) == 7
  {
    assert CountParameter(Some("3")) == 3 by {
      assert "3" == NatToString(3);
      CountOfDecimal(3);
    }
    assert CountParameter(Some("12abc")) == 12 by {
      assert "12abc" == NatToString(12) + "abc";
      ParseIntDigits(NatToString(12), "abc");
      DigitsValueOfNatToString(12);
    }
    assert CountParameter(Some("-2")) == -2 by {
      assert "-2" == "-" + NatToString(2);
      ParseIntOfNegatedNatToString(2);
    }
    assert CountParameter(Some(" 7")) == 7 by {
      assert " 7" == [' '] + "7";
      ParseIntSkipsWhiteSpace([' '], "7");
      assert "7" == NatToString(7);
      CountOfDecimal(7);
    }
  }

  /** Sample counts that fall back to 5: NaN for `"abc"`, `""` and an
      absent parameter, zero for `"0"`. */
  lemma CountExamplesDefaulted()
    ensures CountParameter(Some("abc")) == 5
    ensures CountParameter(Some("")) == 5
    ensures CountParameter(Some("0")) == 5
    ensures CountParameter(None) == 5
  {
    assert CountParameter(Some("abc")) == 5 by {
      ParseIntNonNumeric("abc");
    }
    assert CountParameter(Some("")) == 5 by {
      ParseIntNaN("");
    }
    assert CountParameter(Some("0")) == 5 by {
      assert "0" == NatToString(0);
      CountOfDecimal(0);
    }
    assert CountParameter(None) == 5 by {
      ParseIntNonNumeric("undefined");
    }
  }
}
