/** The DynamoDB client as the builder sees it: it records each call and answers with the next
    of a given sequence of replies. Once the replies run out every call fails, as a call that
    raises a DynamoDbException. */
module Transport {
  import opened Dynamo

  /** The reply to the next call. */
  function Next(script: seq<Reply>): Reply {
    if script == [] then Failure else script[0]
  }

  /** The replies left after one call. */
  function Rest(script: seq<Reply>): (r: seq<Reply>)
    ensures script != [] ==> |r| == |script| - 1
    ensures script == [] ==> r == []
  {
    if script == [] then [] else script[1..]
  }

  class Client {
    /** The replies still to come. */
    var script: seq<Reply>
    /** Every call made so far, oldest first. */
    var sent: seq<Call>

    constructor (replies: seq<Reply>)
      ensures script == replies && sent == []
    {
      script := replies;
      sent := [];
    }

    /** One call on the client (scan, query, getItem, deleteItem, updateItem, putItem or
        batchWriteItem, as `c` says). */
    method Send(c: Call) returns (r: Reply)
      modifies this
      ensures sent == old(sent) + [c]
      ensures r == Next(old(script)) && script == Rest(old(script))
    {
      sent := sent + [c];
      r := Next(script);
      script := Rest(script);
    }
  }
}
