/**
 * The base consumer of address-list headers such as From and To (the
 * address-list production of section 3.4 of RFC 5322). It has no
 * separators, start tokens or end tokens of its own and hands every token
 * to a single sub-consumer, the address consumer; its one rule of its own
 * is that it does not step past a token that starts a sub-consumer, so
 * that token reaches the sub-consumer.
 */
module AddressBaseConsumer {

  /** The consumers of the header grammar the base consumer refers to. */
  datatype Consumer = AddressBaseConsumer | AddressConsumer

  /** A token header part: a literal piece of the header value. */
  datatype Token = Token(value: string) {
    /** `__toString`: the token's text. */
    function ToString(): (r: string)
      ensures r == value
    {
      value
    }
  }

  /** `getSubConsumers`: the address consumer, and nothing else. */
  function SubConsumers(): (r: seq<Consumer>)
    ensures |r| == 1
    ensures forall c :: c in r <==> c == AddressConsumer
  {
    [AddressConsumer]
  }

  /** `getTokenSeparators`: no separator patterns of its own. */
  function TokenSeparators(): (r: seq<string>)
    ensures |r| == 0
  {
    []
  }

  /** `isStartToken`: no token starts this consumer. */
  function IsStartToken(token: string): (r: bool)
    ensures !r
  {
    false
  }

  /** `isEndToken`: no token ends this consumer. */
  function IsEndToken(token: string): (r: bool)
    ensures !r
  {
    false
  }

  /** `getPartForToken`: a token part holding the token text, literal or not. */
  function PartForToken(token: string, isLiteral: bool): (r: Token)
    ensures r.ToString() == token
  {
    Token(token)
  }

  /** Whether a token is literal does not change the part made for it. */
  lemma PartForTokenIgnoresLiteral(token: string)
    ensures PartForToken(token, true) == PartForToken(token, false)
  {
  }

  /**
   * The token iterator the consumers share: the split header value and a
   * position in it.
   */
  class TokenIterator {
    const tokens: seq<string>
    var position: nat

    constructor (tokens: seq<string>)
      ensures this.tokens == tokens && position == 0
    {
      this.tokens := tokens;
      position := 0;
    }

    predicate Valid()
      reads this
    {
      position < |tokens|
    }

    function Current(): string
      requires Valid()
      reads this
    {
      tokens[position]
    }
  }

  /**
   * Where `advanceToNextToken` leaves the iterator: in place on a start
   * token, otherwise wherever the base consumer's advance step puts it.
   * The base step belongs to the abstract consumer and is a parameter.
   */
  function Advanced(tokens: seq<string>, position: nat, isStartToken: bool, baseAdvance: (seq<string>, nat) -> nat): (r: nat)
    ensures isStartToken ==> r == position
    ensures !isStartToken ==> r == baseAdvance(tokens, position)
  {
    if isStartToken then position else baseAdvance(tokens, position)
  }

  /** `advanceToNextToken`: moves the shared iterator as `Advanced` says; the token it stops on on a start token is the one it was on. */
  method AdvanceToNextToken(it: TokenIterator, isStartToken: bool, baseAdvance: (seq<string>, nat) -> nat)
    modifies it
    ensures it.position == Advanced(it.tokens, old(it.position), isStartToken, baseAdvance)
    ensures isStartToken && old(it.Valid()) ==> it.Valid() && it.Current() == old(it.Current())
  {
    if isStartToken {
      return;
    }
    it.position := baseAdvance(it.tokens, it.position);
  }

  /** A token made from `testing` reads back as `testing`. */
  method TokenInstanceTest() returns (value: string, text: string)
    ensures value == "testing" && text == "testing"
  {
    var token := Token("testing");
    value := token.value;
    text := token.ToString();
  }
}
