/** Checks 9 and 12 of the ledger integrity script (scripts/ledger_integrity.py). */
module LedgerIntegrity {
  import opened Ledger

  // ---------------------------------------------------------------------------
  // Check 12: chronological replay
  // ---------------------------------------------------------------------------

  type Key = (AccountId, Currency)

  function Lookup(m: map<Key, Amount>, key: Key): Amount { if key in m then m[key] else 0 }

  /** The replay loop, run over the rows in any order, derives for every account and currency the balance that
      get_balance derives from the journal, and has an entry exactly for those with a customer-liability row. */
  method Replay(ordered: seq<Entry>, ghost journal: seq<Entry>) returns (balances: map<Key, Amount>)
    requires multiset(ordered) == multiset(journal)
    ensures forall a: AccountId, c: Currency :: Lookup(balances, (a, c)) == GetBalance(journal, a, c)
    ensures forall key :: key in balances <==>
      exists e :: e in journal && e.coa.InstitutionLiability? && (e.account, e.currency) == key
  {
    balances := map[];
    for i := 0 to |ordered|
      invariant forall a: AccountId, c: Currency :: Lookup(balances, (a, c)) == GetBalance(ordered[..i], a, c)
      invariant forall key :: key in balances <==>
        exists j :: 0 <= j < i && ordered[j].coa.InstitutionLiability?
                    && (ordered[j].account, ordered[j].currency) == key
    {
      var e := ordered[i];
      assert ordered[..i + 1][..i] == ordered[..i];
      if e.coa.InstitutionLiability? {
        var key := (e.account, e.currency);
        balances := balances[key := Lookup(balances, key) + e.credit - e.debit];
      }
    }
    assert ordered[..|ordered|] == ordered;
    forall a: AccountId, c: Currency ensures GetBalance(ordered, a, c) == GetBalance(journal, a, c) {
      BalancePermutation(ordered, journal, a, c, InstitutionLiability);
    }
    SameRows(ordered, journal);
  }

  lemma SameRows(js: seq<Entry>, ks: seq<Entry>)
    requires multiset(js) == multiset(ks)
    ensures forall e :: e in js <==> e in ks
  {
    forall e ensures e in js <==> e in ks {
      assert e in js <==> e in multiset(js);
      assert e in ks <==> e in multiset(ks);
    }
  }

  // ---------------------------------------------------------------------------
  // Check 9: debit equals credit per journal id
  // ---------------------------------------------------------------------------

  function JournalDebit(id: nat): Entry -> int { (e: Entry) => if e.journalId == id then e.debit else 0 }

  function JournalCredit(id: nat): Entry -> int { (e: Entry) => if e.journalId == id then e.credit else 0 }

  /** The query reports the journal id: debit and credit differ by more than 10^-18. */
  predicate Imbalanced(js: seq<Entry>, id: nat) {
    var difference := Total(js, JournalDebit(id)) - Total(js, JournalCredit(id));
    difference > 1 || difference < -1
  }

  lemma {:induction false} PostKeepsGroups(js: seq<Entry>, ps: seq<Pair>, id: nat, group: nat)
    ensures Imbalanced(Post(js, ps, id), group) <==> Imbalanced(js, group)
    ensures Total(Post(js, ps, id), JournalDebit(group)) - Total(js, JournalDebit(group))
         == Total(Post(js, ps, id), JournalCredit(group)) - Total(js, JournalCredit(group))
  {
    if |ps| != 0 {
      var n := |ps| - 1;
      var front, rows := ps[..n], Rows(ps[n], id + n);
      PostKeepsGroups(js, front, id, group);
      TotalConcat(Post(js, front, id), rows, JournalDebit(group));
      TotalConcat(Post(js, front, id), rows, JournalCredit(group));
      TotalOfPair(ps[n], id + n, JournalDebit(group));
      TotalOfPair(ps[n], id + n, JournalCredit(group));
    }
  }

  /** Whatever the services post on top of the bootstrap rows, check 9 reports exactly the six bootstrap journals: it
      never passes on a seeded database, and never reports a journal of the services. */
  lemma OnlyBootstrapImbalanced(ps: seq<Pair>, group: nat)
    ensures Imbalanced(Post(BOOTSTRAP, ps, |BOOTSTRAP|), group) <==> group < 6
  {
    PostKeepsGroups(BOOTSTRAP, ps, |BOOTSTRAP|, group);
    UnfoldTotal(BOOTSTRAP, JournalDebit(group));
    UnfoldTotal(BOOTSTRAP, JournalCredit(group));
  }
}
