/** A cursor over the finite token sequence produced by the lexer. */
module TokenStreams {
  import opened Tokens

  class TokenStream {
    const tokens: seq<Token>
    var position: nat

    /** The cursor is on a token, or just past the last one. */
    ghost predicate Valid()
      reads this
    {
      position <= |tokens|
    }

    constructor (tokens: seq<Token>)
      ensures Valid() && this.tokens == tokens && position == 0
    {
      this.tokens := tokens;
      position := 0;
    }

    /** The token under the cursor, or None once the stream is exhausted. */
    function Current(): (t: Option<Token>)
      reads this
      ensures t.Some? <==> position < |tokens|
      ensures t.Some? ==> t.value == tokens[position]
    {
      if position < |tokens| then Some(tokens[position]) else None
    }

    /** No token follows the current one. */
    predicate EndOfStream()
      reads this
    {
      position + 1 >= |tokens|
    }

    /** Advances one token; a no-op once the stream is exhausted. */
    method MoveNext()
      requires Valid()
      modifies this
      ensures Valid()
      ensures position == if old(position) < |tokens| then old(position) + 1 else old(position)
    {
      if position < |tokens| {
        position := position + 1;
      }
    }

    /** Advances one token and reports whether a token is under the cursor
        afterwards, handing back that token. */
    method TryMoveNext() returns (moved: bool, token: Option<Token>)
      requires Valid()
      modifies this
      ensures Valid()
      ensures position == if old(position) < |tokens| then old(position) + 1 else old(position)
      ensures moved <==> position < |tokens|
      ensures token == Current()
    {
      MoveNext();
      token := Current();
      moved := token.Some?;
    }
  }
}
