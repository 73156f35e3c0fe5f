/** `InMemoryDecisionPersistence`: the reference that the SQLite adapter refines. */
module InMemoryDecisions {
  import opened Domain
  import opened Decisions

  class InMemoryDecisionPersistence {
    var records: Ledger

    ghost predicate Valid()
      reads this
    {
      ValidLedger(records)
    }

    constructor ()
      ensures Valid() && records == map[]
    {
      records := map[];
    }

    method Persist(r: Request) returns (o: Outcome)
      requires Valid()
      modifies this
      ensures Valid()
      ensures (records, o) == ReferencePersist(old(records), r)
      ensures o == New <==> r.key !in old(records)
      ensures o == Replay <==> r.key in old(records) && old(records)[r.key] == r
      ensures o == KeyReused <==> r.key in old(records) && old(records)[r.key] != r
      ensures records == if o == New then old(records)[r.key := r] else old(records)
    {
      if r.key in records {
        if records[r.key] != r {
          return KeyReused;
        }
        return Replay;
      }
      records := records[r.key := r];
      o := New;
    }
  }
}
