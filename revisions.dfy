/** The two revisions of the store side by side, on one concrete removal. */
module Revisions {
  import opened Common
  import opened SparseSets
  import opened LegacySparseSets

  /**
   * Entities 0 and 1 own the values 7 and 8; entity 0 is removed. Both revisions move entity 1's value
   * into slot 0, but only the current one repoints entity 1's sparse entry, so only there is it still found.
   */
  lemma RemoveFirstOfTwo()
    ensures var legacy := LegacyStore([0, 1], [Owned(0, 7), Owned(1, 8)]).AfterRemove(0);
            && legacy.dense == [Owned(1, 8)]
            && legacy.sparse == [EMPTY, 1]
            && legacy.Get(1) == None
    ensures var before := Store([0, 1], [Owned(0, 7), Owned(1, 8)]);
            before.Valid() && before.AfterRemove(0).Valid()
            && before.AfterRemove(0).dense == [Owned(1, 8)]
            && before.AfterRemove(0).sparse == [EMPTY, 0]
            && before.AfterRemove(0).Get(1) == Some(0)
  {
  }
}
