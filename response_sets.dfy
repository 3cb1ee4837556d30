/** `ResponseSet`: the deduplicating, ordered collection of responses that
    every server operation returns. Its one field is the set a `TreeSet`
    holds; the order shows up only when the responses are listed. */
module ResponseSets {

  import opened SortedSeqs
  import opened Responses

  class ResponseSet {
    var responses: set<Response>

    /** `new ResponseSet()`. */
    constructor ()
      ensures responses == {}
    {
      responses := {};
    }

    /** `addMessage`: true exactly when the response was not there yet; an
        equal response already present is not stored twice. */
    method AddMessage(response: Response) returns (added: bool)
      modifies this
      ensures responses == old(responses) + {response}
      ensures added <==> response !in old(responses)
      ensures |responses| == |old(responses)| + (if added then 1 else 0)
    {
      added := response !in responses;
      if !added {
        assert responses + {response} == responses;
      }
      responses := responses + {response};
    }

    /** `ResponseSet.empty()`. */
    static method Empty() returns (rs: ResponseSet)
      ensures fresh(rs) && rs.responses == {}
    {
      rs := new ResponseSet();
    }

    /** `ResponseSet.singleMessage(r)`: exactly {r}. */
    static method SingleMessage(response: Response) returns (rs: ResponseSet)
      ensures fresh(rs) && rs.responses == {response}
    {
      rs := new ResponseSet();
      var _ := rs.AddMessage(response);
    }

    /** `getResponses`: every response once, in `compareTo` order, which is
        the order the backend delivers them in. */
    function GetResponses(): (rs: seq<Response>)
      reads this
      ensures Sorted(Less, rs) && Elems(rs) == responses && |rs| == |responses|
    {
      LessIsStrictOrder(responses);
      FromSet(Less, responses)
    }

    /** `equals`: the same responses, however they were added. */
    predicate Equals(other: ResponseSet)
      reads this, other
    {
      responses == other.responses
    }
  }

  /** The delivery order is determined by the responses alone: any
      ascending listing of them is the one `getResponses` gives. */
  lemma DeliveryOrderIsUnique(rs: ResponseSet, listing: seq<Response>)
    requires Sorted(Less, listing) && Elems(listing) == rs.responses
    ensures listing == rs.GetResponses()
  {
    LessIsStrictOrder(Elems(listing));
    SortedUnique(Less, listing, rs.GetResponses());
  }

  /** `singleMessage(r)` equals a fresh set after `addMessage(r)`. */
  method SingleMessageMatchesAddMessage(r: Response) returns (same: bool)
    ensures same
  {
    var a := ResponseSet.SingleMessage(r);
    var b := new ResponseSet();
    var added := b.AddMessage(r);
    assert added;
    same := a.Equals(b);
  }

  /** The order in which two responses are added, and adding one of them
      again, make no difference to equality. */
  method InsertionOrderIsIrrelevant(r1: Response, r2: Response) returns (same: bool, againAdded: bool)
    ensures same && !againAdded
  {
    var a := new ResponseSet();
    var _ := a.AddMessage(r1);
    var _ := a.AddMessage(r2);
    var b := new ResponseSet();
    var _ := b.AddMessage(r2);
    var _ := b.AddMessage(r1);
    againAdded := b.AddMessage(r2);
    same := a.Equals(b);
  }
}
