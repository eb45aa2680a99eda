/** Worked examples of the grant rewrite on a MySQL 5.6 `GRANT USAGE` line
    for the account `'bob'@'%'`. The small lemmas pin down facts about the
    literal strings so that the examples themselves reason about variables. */
module GrantExamples {
  import opened Php
  import opened Text
  import opened DumpGrants

  /** The start of a usage grant on every database. */
  const UsageHead: string := "GRANT USAGE ON *.* TO "

  const BobAccount: string := "'bob'@'%'"
  const AliceAccount: string := "'alice'@'10.0.0.1'"

  /** Bob's grant as the server reports it, password hash redacted. */
  const BobUsageLine: string := UsageHead + BobAccount + SecretClause

  lemma AccountFacts(from: string, to: string)
    requires from == AccountToken("bob", "%") && to == AccountToken("alice", "10.0.0.1")
    ensures from == BobAccount && to == AliceAccount
    ensures from[0] == '\'' && to[0] == '\'' && '>' !in from && '>' !in to
  {
  }

  lemma HeadFacts(head: string)
    requires head == UsageHead
    ensures '\'' !in head && '>' !in head
    ensures StartsWith(head, UsagePrefix)
  {
  }

  lemma ClauseFacts(clause: string)
    requires clause == SecretClause
    ensures '\'' !in clause && clause[|clause| - 1] == '>' && '>' !in clause[..|clause| - 1]
  {
  }

  /** Facts about a usage grant head followed by an account, from facts
      about the parts. */
  lemma HeadAccount(head: string, account: string)
    requires '\'' !in head && '>' !in head && StartsWith(head, UsagePrefix)
    requires account != [] && account[0] == '\'' && '>' !in account
    ensures account[0] !in head && '>' !in head + account
    ensures StartsWith(head + account, UsagePrefix)
  {
    assert (head + account)[..|UsagePrefix|] == head[..|UsagePrefix|];
  }

  lemma AliceTaskFacts(t: Task)
    requires t == DestinationUser(SourceUser(New("dsn", "root", ""), "bob", "%"), "alice", "10.0.0.1")
    ensures PatternsLiteral(t)
    ensures Str(t.sourceUser) == "bob" && Str(t.sourceHost) == "%"
    ensures Str(t.destinationUser) == "alice" && Str(t.destinationHost) == "10.0.0.1"
    ensures !Empty(t.destinationUser) && Empty(t.destinationPassword) && Empty(t.destinationDatabase)
  {
  }

  lemma PasswordFacts(clause: string)
    requires clause == PasswordClause("s3cret")
    ensures clause + ";" == " IDENTIFIED BY 's3cret';"
  {
  }

  /** The grant of `'bob'@'%'`, moved to `'alice'@'10.0.0.1'` with no
      password, comes out as Alice's grant without the redacted clause. */
  lemma MoveBobToAlice(t: Task, line: string)
    requires t == DestinationUser(SourceUser(New("dsn", "root", ""), "bob", "%"), "alice", "10.0.0.1")
    requires line == BobUsageLine
    ensures PrepareLineForOutput(t, line) == UsageHead + AliceAccount + ";"
  {
    var head := UsageHead;
    var from := AccountToken("bob", "%");
    var to := AccountToken("alice", "10.0.0.1");
    AccountFacts(from, to);
    HeadFacts(head);
    ClauseFacts(SecretClause);
    HeadAccount(head, from);
    HeadAccount(head, to);
    AliceTaskFacts(t);
    ReplaceAllAfterPlainPrefix(head, from, to, SecretClause);
    ReplaceAllWithoutFirstChar(SecretClause, from, to);
    assert ReplaceUser(t, line) == head + to + SecretClause;
    ReplaceAllTrailing(head + to, SecretClause, "");
    ReplaceAllIsImplodeExplode(head + to + SecretClause, SecretClause, "");
  }

  /** With the destination password `s3cret`, Bob's redacted clause becomes
      the clause that sets that password; the password does not take the
      place of the `<secret>` token. */
  lemma BobGetsPassword(t: Task, line: string)
    requires t == DestinationPassword(SourceUser(New("dsn", "root", ""), "bob", "%"), "s3cret")
    requires line == BobUsageLine
    ensures PrepareLineForOutput(t, line) == UsageHead + BobAccount + " IDENTIFIED BY 's3cret';"
  {
    var head := UsageHead;
    var account := AccountToken("bob", "%");
    var clause := PasswordClause("s3cret");
    AccountFacts(account, AccountToken("alice", "10.0.0.1"));
    HeadFacts(head);
    HeadAccount(head, account);
    PasswordFacts(clause);
    UsageSecretBecomesPassword(t, head + account);
  }
}
