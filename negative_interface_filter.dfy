/**
 * The negative outage interface filter: selects outages whose interface
 * address is not a given address (or is unknown), and describes itself as
 * SQL, as a URL-style description and as text.
 */
module OutageFilter {
  import opened Wrappers

  /** The filter's type name, the key of its description. */
  const TYPE := "interfacenot"

  const SqlPrefix := " (OUTAGES.IPADDR<>'"
  const SqlSuffix := "' OR OUTAGES.IPADDR IS NULL)"
  const ParamSqlBeforePlaceholder := " (OUTAGES.IPADDR<>"
  const ParamSqlAfterPlaceholder := " OR OUTAGES.IPADDR IS NULL)"
  const DescriptionPrefix := TYPE + "="
  const TextDescriptionPrefix := "interface is not "
  const ToStringPrefix := "<OutageFactory.InterfaceFilter: "
  const ToStringSuffix := ">"

  /** The one placeholder of parameterised SQL. */
  const Placeholder: char := '?'

  /** `pre + x + post`: `x` wrapped between a fixed prefix and suffix. */
  function Wrap(pre: string, x: string, post: string): string
  {
    pre + x + post
  }

  /** The text between `pre` and `post`, when `s` starts with `pre` and ends with `post`. */
  function Unwrap(s: string, pre: string, post: string): (r: Option<string>)
    ensures r.Some? ==> s == Wrap(pre, r.value, post)
  {
    if |pre| + |post| <= |s| && s[..|pre|] == pre && s[|s| - |post|..] == post then
      var x := s[|pre|..|s| - |post|];
      assert s == Wrap(pre, x, post);
      Some(x)
    else
      None
  }

  /** Unwrapping undoes wrapping: the wrapped text is recovered exactly. */
  lemma UnwrapWrap(pre: string, x: string, post: string)
    ensures Unwrap(Wrap(pre, x, post), pre, post) == Some(x)
  {
    var s := Wrap(pre, x, post);
    assert s[..|pre|] == pre && s[|s| - |post|..] == post;
    assert s[|pre|..|s| - |post|] == x;
  }

  /** How many times `c` occurs in `s`. */
  function Occurrences(s: string, c: char): (n: nat)
    ensures n <= |s|
    ensures n == 0 <==> c !in s
  {
    if s == [] then 0 else (if s[0] == c then 1 else 0) + Occurrences(s[1..], c)
  }

  /** Occurrences add up over concatenation. */
  lemma {:induction false} OccurrencesConcat(a: string, b: string, c: char)
    ensures Occurrences(a + b, c) == Occurrences(a, c) + Occurrences(b, c)
    decreases |a|
  {
    if a == [] {
      assert a + b == b;
    } else {
      assert (a + b)[0] == a[0] && (a + b)[1..] == a[1..] + b;
      OccurrencesConcat(a[1..], b, c);
    }
  }

  /** The fixed text around the placeholder holds no placeholder of its own. */
  lemma OnePlaceholder()
    ensures Occurrences(Wrap(ParamSqlBeforePlaceholder, [Placeholder], ParamSqlAfterPlaceholder), Placeholder) == 1
  {
    assert Placeholder !in ParamSqlBeforePlaceholder;
    assert Placeholder !in ParamSqlAfterPlaceholder;
    OccurrencesConcat(ParamSqlBeforePlaceholder + [Placeholder], ParamSqlAfterPlaceholder, Placeholder);
    OccurrencesConcat(ParamSqlBeforePlaceholder, [Placeholder], Placeholder);
  }

  /** A filter on one interface address; `ipAddress` is never null. */
  datatype NegativeInterfaceFilter = NegativeInterfaceFilter(ipAddress: string)
  {
    /** The SQL condition with the address inlined between quotes. */
    function Sql(): (r: string)
      ensures Unwrap(r, SqlPrefix, SqlSuffix) == Some(ipAddress)
    {
      UnwrapWrap(SqlPrefix, ipAddress, SqlSuffix);
      Wrap(SqlPrefix, ipAddress, SqlSuffix)
    }

    /** The SQL condition with one `?` where the address is bound; it does not depend on the address. */
    function ParamSql(): (r: string)
      ensures Occurrences(r, Placeholder) == 1
      ensures Unwrap(r, ParamSqlBeforePlaceholder, ParamSqlAfterPlaceholder) == Some([Placeholder])
    {
      var r := " (OUTAGES.IPADDR<>? OR OUTAGES.IPADDR IS NULL)";
      assert r == Wrap(ParamSqlBeforePlaceholder, [Placeholder], ParamSqlAfterPlaceholder);
      UnwrapWrap(ParamSqlBeforePlaceholder, [Placeholder], ParamSqlAfterPlaceholder);
      OnePlaceholder();
      r
    }

    /**
     * `bindParam`: binds the address to the statement at `parameterIndex` (not
     * modelled) and reports how many parameters it bound, the number of
     * placeholders in `ParamSql()`.
     */
    function BindParam(parameterIndex: int): (bound: int)
      ensures bound == Occurrences(ParamSql(), Placeholder)
    {
      1
    }

    /** `interfacenot=<address>`. */
    function Description(): (r: string)
      ensures Unwrap(r, DescriptionPrefix, "") == Some(ipAddress)
    {
      UnwrapWrap(DescriptionPrefix, ipAddress, "");
      assert TYPE + "=" + ipAddress == Wrap(DescriptionPrefix, ipAddress, "");
      TYPE + "=" + ipAddress
    }

    /** `interface is not <address>`. */
    function TextDescription(): (r: string)
      ensures Unwrap(r, TextDescriptionPrefix, "") == Some(ipAddress)
    {
      UnwrapWrap(TextDescriptionPrefix, ipAddress, "");
      assert TextDescriptionPrefix + ipAddress == Wrap(TextDescriptionPrefix, ipAddress, "");
      TextDescriptionPrefix + ipAddress
    }

    /** The description inside the fixed `<OutageFactory.InterfaceFilter: ...>` wrapper. */
    function ToString(): (r: string)
      ensures Unwrap(r, ToStringPrefix, ToStringSuffix) == Some(Description())
      ensures Unwrap(r, ToStringPrefix + DescriptionPrefix, ToStringSuffix) == Some(ipAddress)
    {
      var r := Wrap(ToStringPrefix, Description(), ToStringSuffix);
      UnwrapWrap(ToStringPrefix, Description(), ToStringSuffix);
      assert r == Wrap(ToStringPrefix + DescriptionPrefix, ipAddress, ToStringSuffix);
      UnwrapWrap(ToStringPrefix + DescriptionPrefix, ipAddress, ToStringSuffix);
      r
    }

    /** The stored address: the one every string form of the filter carries. */
    function GetIpAddress(): (r: string)
      ensures Unwrap(ToString(), ToStringPrefix + DescriptionPrefix, ToStringSuffix) == Some(r)
      ensures Unwrap(Sql(), SqlPrefix, SqlSuffix) == Some(r)
    {
      ipAddress
    }

    /**
     * `equals(obj)` for a non-null `obj`, given by the text its `toString()`
     * returns: equal exactly when that text is this filter's `toString()`, that
     * is, exactly when it is the fixed wrapper around this filter's address.
     */
    predicate Equals(objToString: string)
      ensures Equals(objToString) <==>
        Unwrap(objToString, ToStringPrefix + DescriptionPrefix, ToStringSuffix) == Some(ipAddress)
    {
      assert ToString() == Wrap(ToStringPrefix + DescriptionPrefix, ipAddress, ToStringSuffix);
      ToString() == objToString
    }
  }

  /** The constructor: rejects a null (`None`) address, otherwise keeps it unchanged. */
  function Create(ipAddress: Option<string>): (r: Result<NegativeInterfaceFilter>)
    ensures r.Failure? <==> ipAddress.None?
    ensures r.Failure? ==> r.error == IllegalArgument("Cannot take null parameters.")
    ensures r.Success? ==> r.value.GetIpAddress() == ipAddress.value
  {
    match ipAddress
    case None => Failure(IllegalArgument("Cannot take null parameters."))
    case Some(a) => Success(NegativeInterfaceFilter(a))
  }

  /** Two filters are equal exactly when their addresses are equal. */
  lemma EqualsIffSameAddress(f: NegativeInterfaceFilter, g: NegativeInterfaceFilter)
    ensures f.Equals(g.ToString()) <==> f.ipAddress == g.ipAddress
  {
    assert g.ToString() == Wrap(ToStringPrefix + DescriptionPrefix, g.ipAddress, ToStringSuffix);
    UnwrapWrap(ToStringPrefix + DescriptionPrefix, g.ipAddress, ToStringSuffix);
  }

  /** Equality of filters is symmetric. */
  lemma EqualsSymmetric(f: NegativeInterfaceFilter, g: NegativeInterfaceFilter)
    ensures f.Equals(g.ToString()) <==> g.Equals(f.ToString())
  {
    EqualsIffSameAddress(f, g);
    EqualsIffSameAddress(g, f);
  }
}
