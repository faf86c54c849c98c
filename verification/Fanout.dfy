/**
 One message, several candidate rows: each that is sound and whose id is free becomes a
 queue row of its own, while other writers go on between the insertions.
 */
module Fanout {
  import opened Mails
  import opened QueueTable
  import opened Statements

  /**
   A row to insert. It is `sound` when its payload validates and the statement takes effect
   unless the id is taken, and `heard` when the success of the statement is reported.
   */
  datatype Candidate = Candidate(row: Mail, sound: bool, heard: bool)

  /** What others execute before each insertion. */
  type Others = nat -> seq<Statement>

  /** The table after the first `n` candidates have been tried in order. */
  function Stored(t: Table, cs: seq<Candidate>, others: Others, n: nat): Table
    requires n <= |cs|
  {
    if n == 0 then t
    else
      var before := ExecuteAll(Stored(t, cs, others, n - 1), others(n - 1));
      if cs[n - 1].sound then Insert(before, cs[n - 1].row) else before
  }

  /** The table candidate `i` finds. */
  function Found(t: Table, cs: seq<Candidate>, others: Others, i: nat): Table
    requires i <= |cs|
  {
    ExecuteAll(Stored(t, cs, others, i), others(i))
  }

  /** The insertion of candidate `i` takes effect. */
  predicate Wins(t: Table, cs: seq<Candidate>, others: Others, i: nat)
    requires i < |cs|
  {
    cs[i].sound && cs[i].row.id !in Found(t, cs, others, i)
  }

  /** Candidates whose insertion takes effect and is reported: what the handler counts. */
  function Accepted(t: Table, cs: seq<Candidate>, others: Others, n: nat): nat
    requires n <= |cs|
  {
    if n == 0 then 0
    else Accepted(t, cs, others, n - 1) + (if Wins(t, cs, others, n - 1) && cs[n - 1].heard then 1 else 0)
  }

  /** What the others alone make of the table. */
  function Alone(t: Table, others: Others, n: nat): Table {
    if n == 0 then t else ExecuteAll(Alone(t, others, n - 1), others(n - 1))
  }

  /** Each candidate adds exactly its own row, under a free id, or nothing. */
  lemma CandidateAdds(t: Table, cs: seq<Candidate>, others: Others, i: nat)
    requires i < |cs|
    ensures Stored(t, cs, others, i + 1) ==
            if Wins(t, cs, others, i) then Found(t, cs, others, i)[cs[i].row.id := cs[i].row] else Found(t, cs, others, i)
  {
  }

  /** Rows stay and keep their mail, from any candidate to any later one. */
  lemma {:induction false} RowsStay(t: Table, cs: seq<Candidate>, others: Others, i: nat, n: nat, id: MailId)
    requires i <= n <= |cs| && id in Stored(t, cs, others, i)
    ensures id in Stored(t, cs, others, n) && SameMail(Stored(t, cs, others, i)[id], Stored(t, cs, others, n)[id])
    decreases n
  {
    if i < n {
      RowsStay(t, cs, others, i, n - 1, id);
      ExecuteAllKeepsMail(Stored(t, cs, others, n - 1), others(n - 1), id);
    }
  }

  /** Every successful insertion is there at the end as this very mail. */
  lemma WinnerStays(t: Table, cs: seq<Candidate>, others: Others, i: nat, n: nat)
    requires i < n <= |cs| && Wins(t, cs, others, i)
    ensures cs[i].row.id in Stored(t, cs, others, n) && SameMail(cs[i].row, Stored(t, cs, others, n)[cs[i].row.id])
  {
    CandidateAdds(t, cs, others, i);
    RowsStay(t, cs, others, i + 1, n, cs[i].row.id);
  }

  /** With no other writer it is the row as built, and old rows are untouched. */
  lemma {:induction false} AloneRowsExact(t: Table, cs: seq<Candidate>, others: Others, i: nat, n: nat, id: MailId)
    requires i <= n <= |cs| && id in Stored(t, cs, others, i) && forall k: nat :: others(k) == []
    ensures id in Stored(t, cs, others, n) && Stored(t, cs, others, n)[id] == Stored(t, cs, others, i)[id]
    decreases n
  {
    if i < n {
      AloneRowsExact(t, cs, others, i, n - 1, id);
      assert others(n - 1) == [];
    }
  }

  /** Each under an id of its own. */
  lemma WinnersDiffer(t: Table, cs: seq<Candidate>, others: Others, i: nat, j: nat)
    requires i < j < |cs| && Wins(t, cs, others, i) && Wins(t, cs, others, j)
    ensures cs[i].row.id != cs[j].row.id
  {
    WinnerStays(t, cs, others, i, j);
    ExecuteAllKeepsMail(Stored(t, cs, others, j), others(j), cs[i].row.id);
  }

  /** What is new at the end is a successful insertion or was inserted by others. */
  lemma {:induction false} NewRowsExplained(t: Table, cs: seq<Candidate>, others: Others, n: nat, id: MailId)
    requires n <= |cs| && id in Stored(t, cs, others, n) && id !in t
    ensures (exists i: nat :: i < n && Wins(t, cs, others, i) && cs[i].row.id == id)
         || (exists i: nat :: i < n && Inserts(others(i), id))
  {
    var before := Stored(t, cs, others, n - 1);
    ExecuteAllKeepsMail(before, others(n - 1), id);
    if id in before {
      NewRowsExplained(t, cs, others, n - 1, id);
    } else if id in Found(t, cs, others, n - 1) {
      assert Inserts(others(n - 1), id);
    } else {
      CandidateAdds(t, cs, others, n - 1);
      assert Wins(t, cs, others, n - 1) && cs[n - 1].row.id == id;
    }
  }

  /** Without a successful insertion the others alone have written. */
  lemma {:induction false} NoneWins(t: Table, cs: seq<Candidate>, others: Others, n: nat)
    requires n <= |cs| && forall i: nat :: i < n ==> !Wins(t, cs, others, i)
    ensures Stored(t, cs, others, n) == Alone(t, others, n)
  {
    if n > 0 {
      NoneWins(t, cs, others, n - 1);
      CandidateAdds(t, cs, others, n - 1);
    }
  }

  lemma {:induction false} AcceptedIff(t: Table, cs: seq<Candidate>, others: Others, n: nat)
    requires n <= |cs|
    ensures Accepted(t, cs, others, n) > 0 <==> exists i: nat :: i < n && Wins(t, cs, others, i) && cs[i].heard
  {
    if n > 0 {
      AcceptedIff(t, cs, others, n - 1);
      if Wins(t, cs, others, n - 1) && cs[n - 1].heard { assert Accepted(t, cs, others, n) > 0; }
    }
  }
}
