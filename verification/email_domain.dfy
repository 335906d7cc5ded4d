/**
 * The "company" of a committer: the domain of an e-mail address. Address
 * parsing (`email.utils.parseaddr`, section 3.4 of RFC 5322) is a parameter
 * `parseAddr` that yields the bare address.
 */
module EmailDomain {
  import opened Options
  import opened Strings

  /**
   * `d` starts right after the first '@' of `address`, which is at index
   * `i`, and runs up to the next '@' or the end.
   */
  predicate DomainAt(address: string, i: int, d: string) {
    && 0 <= i < |address|
    && address[i] == '@'
    && '@' !in address[..i]
    && var rest := address[i + 1..];
    && StartsWith(rest, d)
    && '@' !in d
    && (|d| == |rest| || rest[|d|] == '@')
  }

  /**
   * The domain of an already-parsed address: the text after the first '@' up
   * to the next '@' or the end, and `None` when there is no '@'.
   */
  function DomainOf(address: string): (r: Option<string>)
    ensures r.None? <==> '@' !in address
    ensures r.Some? ==> exists i :: DomainAt(address, i, r.value)
  {
    if '@' in address then
      DomainIsSecondPiece(address);
      Some(Split(address, '@')[1])
    else None
  }

  /** Where the second '@'-separated piece of an address lies in it. */
  lemma DomainIsSecondPiece(address: string)
    requires '@' in address
    ensures |Split(address, '@')| >= 2
    ensures exists i :: DomainAt(address, i, Split(address, '@')[1])
  {
    var i := IndexOf(address, '@');
    var rest := address[i + 1..];
    var parts := Split(address, '@');
    assert parts == [address[..i]] + Split(rest, '@');
    var d := parts[1];
    assert d == Split(rest, '@')[0];
    if '@' in rest {
      var j := IndexOf(rest, '@');
      assert d == rest[..j];
    } else {
      assert d == rest;
    }
    assert DomainAt(address, i, d);
  }

  /** `extract_email_domain(email)`: the domain of the address `parseAddr` finds in `email`. */
  function ExtractEmailDomain(email: string, parseAddr: string -> string): (r: Option<string>)
    ensures r.None? <==> '@' !in parseAddr(email)
    ensures r.Some? ==> exists i :: DomainAt(parseAddr(email), i, r.value)
    ensures r.Some? ==> '@' !in r.value
  {
    DomainOf(parseAddr(email))
  }
}
