/**
 * Reading the generated report out of the language model's reply: the reply
 * must be present and carry a non-empty list of content blocks; the text of
 * every block that has a `text` attribute is concatenated in order.
 */
module Extraction {
  import opened Wrappers

  /** One content block of the reply; `text` is `None` for a block without a
      `text` attribute (a tool-use block, say). */
  datatype Block = Block(text: Option<string>)

  /** The reply object; `content` is `None` when the attribute is missing or
      `None`. */
  datatype Response = Response(content: Option<seq<Block>>)

  /** Why a reply could not be used. */
  datatype ExtractError = NoResponse | NoContent

  /** The text a block contributes: its text, or nothing. */
  function BlockText(b: Block): string {
    if b.text.Some? then b.text.value else ""
  }

  /** The concatenation, in order, of the texts of the blocks that have one;
      when it is empty, no block carried a non-empty text. */
  function Texts(blocks: seq<Block>): (r: string)
    ensures r == "" ==> forall i :: 0 <= i < |blocks| ==> BlockText(blocks[i]) == ""
    decreases |blocks|
  {
    if blocks == [] then ""
    else
      var init := blocks[..|blocks| - 1];
      assert forall i :: 0 <= i < |init| ==> init[i] == blocks[i];
      Texts(init) + BlockText(blocks[|blocks| - 1])
  }

  /** Concatenation distributes over splitting the block list anywhere. */
  lemma {:induction false} TextsAppend(a: seq<Block>, b: seq<Block>)
    ensures Texts(a + b) == Texts(a) + Texts(b)
    decreases |b|
  {
    if b == [] {
      assert a + b == a;
    } else {
      var c := a + b;
      assert c[..|c| - 1] == a + b[..|b| - 1];
      assert c[|c| - 1] == b[|b| - 1];
      TextsAppend(a, b[..|b| - 1]);
      assert Texts(c) == Texts(a + b[..|b| - 1]) + BlockText(b[|b| - 1]);
    }
  }

  /** Scanning from the front: the first block's text comes first. */
  lemma TextsCons(b: Block, rest: seq<Block>)
    ensures Texts([b] + rest) == BlockText(b) + Texts(rest)
  {
    TextsAppend([b], rest);
    assert [b][..0] == [];
  }

  /** Blocks without text contribute nothing, so a list of them yields `""`. */
  lemma {:induction false} TextsNoText(blocks: seq<Block>)
    requires forall i :: 0 <= i < |blocks| ==> blocks[i].text.None?
    ensures Texts(blocks) == ""
    decreases |blocks|
  {
    if blocks != [] {
      TextsNoText(blocks[..|blocks| - 1]);
    }
  }

  /** The result is empty exactly when no block has a non-empty text. */
  lemma {:induction false} TextsEmpty(blocks: seq<Block>)
    ensures Texts(blocks) == "" <==> forall i :: 0 <= i < |blocks| ==> BlockText(blocks[i]) == ""
    decreases |blocks|
  {
    if blocks != [] {
      var init := blocks[..|blocks| - 1];
      TextsEmpty(init);
      forall i | 0 <= i < |init| ensures init[i] == blocks[i] {
      }
    }
  }

  /** The processed text, or the reason the reply was rejected: an absent
      reply, or one whose content is missing or empty. */
  function Extract(reply: Option<Response>): (r: Result<string, ExtractError>)
    ensures r.Failure? <==> reply.None? || reply.value.content.None? || reply.value.content.value == []
    ensures r.Success? ==> r.value == Texts(reply.value.content.value)
  {
    if reply.None? then Failure(NoResponse)
    else if reply.value.content.None? || reply.value.content.value == [] then Failure(NoContent)
    else Success(Texts(reply.value.content.value))
  }

  /** A reply whose blocks are all without text is accepted and yields `""`. */
  lemma BlocksWithoutText(blocks: seq<Block>)
    requires blocks != []
    requires forall i :: 0 <= i < |blocks| ==> blocks[i].text.None?
    ensures Extract(Some(Response(Some(blocks)))) == Success("")
  {
    TextsNoText(blocks);
  }

  /** The handler's loop: append the text of each block that has one. */
  method ExtractText(blocks: seq<Block>) returns (processed: string)
    ensures processed == Texts(blocks)
  {
    processed := "";
    for i := 0 to |blocks|
      invariant processed == Texts(blocks[..i])
    {
      assert blocks[..i + 1][..i] == blocks[..i];
      if blocks[i].text.Some? {
        processed := processed + blocks[i].text.value;
      }
    }
    assert blocks[..|blocks|] == blocks;
  }
}
