/** The one-off user-id migration (migrateUserIds.js): every user without a public
    `userId` gets `usr-` followed by the next value of the `user` counter, padded with
    zeros to at least five digits.

    The users are the collection's documents in the order `find` returns them; a document
    is updated by its position, which is the document `findByIdAndUpdate` finds since ids
    are unique. */
module UserIdMigration {

  import opened Wrappers
  import Strings
  import Sequences
  import UserModel

  /** The fields of a user the migration reads and writes; `userId` absent or null is
      `None`. */
  datatype Account = Account(id: UserModel.Id, email: string, userId: Option<string>)

  /** The query `userId` absent, null or `''`. */
  predicate NeedsId(a: Account) {
    a.userId.None? || a.userId.value == ""
  }

  const PREFIX := "usr-"
  const WIDTH := 5

  /** The id for counter value `n`. */
  function UserIdFor(n: nat): string {
    PREFIX + Strings.PadStart(Strings.NatToString(n), WIDTH, '0')
  }

  /** An id is the prefix then the counter's decimal digits, padded with zeros to five
      digits and never truncated. */
  lemma UserIdShape(n: nat)
    ensures var id := UserIdFor(n);
      var digits := Strings.NatToString(n);
      && |id| == |PREFIX| + (if |digits| >= WIDTH then |digits| else WIDTH)
      && id[..|PREFIX|] == PREFIX
      && id[|id| - |digits|..] == digits
      && forall k :: |PREFIX| <= k < |id| - |digits| ==> id[k] == '0'
  {
  }

  /** An id of the migration's shape: the prefix, then decimal digits. */
  predicate WellFormed(id: string) {
    |id| > |PREFIX| && id[..|PREFIX|] == PREFIX &&
    forall k :: |PREFIX| <= k < |id| ==> Strings.IsDigit(id[k])
  }

  /** The counter value an id was made from. */
  function CounterOf(id: string): nat
    requires WellFormed(id)
  {
    var digits := id[|PREFIX|..];
    assert forall k :: 0 <= k < |digits| ==> Strings.IsDigit(digits[k]) by {
      forall k | 0 <= k < |digits| ensures Strings.IsDigit(digits[k]) {
        assert digits[k] == id[|PREFIX| + k];
      }
    }
    Strings.DigitsValue(digits)
  }

  /** Every id the migration makes is well formed and gives back its counter value. */
  lemma {:induction false} CounterOfUserId(n: nat)
    ensures WellFormed(UserIdFor(n)) && CounterOf(UserIdFor(n)) == n
  {
    var s := Strings.NatToString(n);
    var padded := Strings.PadStart(s, WIDTH, '0');
    var z := if |s| >= WIDTH then 0 else WIDTH - |s|;
    assert padded == Strings.Repeat('0', z) + s by {
      if |s| >= WIDTH {
        assert Strings.Repeat('0', 0) == "";
      }
    }
    Strings.LeadingZerosValue(z, s);
    Strings.NatToStringValue(n);
    assert UserIdFor(n)[|PREFIX|..] == padded;
  }

  /** Distinct counter values give distinct ids. */
  lemma {:induction false} UserIdInjective(m: nat, n: nat)
    ensures UserIdFor(m) == UserIdFor(n) <==> m == n
  {
    CounterOfUserId(m);
    CounterOfUserId(n);
  }

  /** The positions of the users the migration selects, in collection order. */
  function Selected(accounts: seq<Account>): (sel: seq<nat>)
    ensures forall j :: 0 <= j < |sel| ==> sel[j] < |accounts| && NeedsId(accounts[sel[j]])
    ensures forall i :: 0 <= i < |accounts| && NeedsId(accounts[i]) ==> i in sel
    ensures forall j, k :: 0 <= j < k < |sel| ==> sel[j] < sel[k]
  {
    Sequences.Positions(accounts, NeedsId)
  }

  /** The ids handed out in one run starting from counter value `base` are pairwise
      distinct and in increasing counter order. */
  lemma {:induction false} AssignedInOrder(base: nat, j: nat, k: nat)
    requires j < k
    ensures UserIdFor(base + j + 1) != UserIdFor(base + k + 1)
    ensures WellFormed(UserIdFor(base + j + 1)) && WellFormed(UserIdFor(base + k + 1))
    ensures CounterOf(UserIdFor(base + j + 1)) < CounterOf(UserIdFor(base + k + 1))
  {
    UserIdInjective(base + j + 1, base + k + 1);
    CounterOfUserId(base + j + 1);
    CounterOfUserId(base + k + 1);
  }

  class Migration {
    /** The users collection. */
    var accounts: seq<Account>
    /** The `seq` of the counter named `user`; `None` when that counter does not exist. */
    var counter: Option<nat>

    constructor(accounts: seq<Account>, counter: Option<nat>)
      ensures this.accounts == accounts && this.counter == counter
    {
      this.accounts := accounts;
      this.counter := counter;
    }

    /** `migrate()`: returns the number of users migrated. With nothing selected it returns
        before the counter is read or created. Otherwise the counter is created at 0 if
        missing, rises by one per selected user, and the `j`-th selected user gets the id
        of the `j+1`-th value after the start; every other user is untouched. */
    method Migrate() returns (migrated: nat)
      modifies this
      ensures migrated == |Selected(old(accounts))|
      ensures |accounts| == |old(accounts)|
      ensures migrated == 0 ==> accounts == old(accounts) && counter == old(counter)
      ensures migrated > 0 ==> counter == Some(old(counter).GetOr(0) + migrated)
      ensures forall i :: 0 <= i < |accounts| && i !in Selected(old(accounts)) ==> accounts[i] == old(accounts)[i]
      ensures forall j :: 0 <= j < migrated ==>
        var i := Selected(old(accounts))[j];
        accounts[i] == old(accounts)[i].(userId := Some(UserIdFor(old(counter).GetOr(0) + j + 1)))
    {
      var sel := Selected(accounts);
      if |sel| == 0 {
        return 0;
      }
      if counter.None? {
        counter := Some(0);
      }
      AssignIds(sel);
      migrated := |sel|;
    }

    /** The loop: one counter increment and one id per listed position, in order. */
    method AssignIds(sel: seq<nat>)
      requires counter.Some?
      requires forall j :: 0 <= j < |sel| ==> sel[j] < |accounts|
      requires forall j, k :: 0 <= j < k < |sel| ==> sel[j] < sel[k]
      modifies this
      ensures counter == Some(old(counter).value + |sel|)
      ensures |accounts| == |old(accounts)|
      ensures forall i :: 0 <= i < |accounts| && i !in sel ==> accounts[i] == old(accounts)[i]
      ensures forall j :: 0 <= j < |sel| ==>
        accounts[sel[j]] == old(accounts)[sel[j]].(userId := Some(UserIdFor(old(counter).value + j + 1)))
    {
      ghost var base := counter.value;
      for j := 0 to |sel|
        invariant |accounts| == |old(accounts)|
        invariant counter == Some(base + j)
        invariant forall i :: 0 <= i < |accounts| && i !in sel[..j] ==> accounts[i] == old(accounts)[i]
        invariant forall j' :: 0 <= j' < j ==>
          accounts[sel[j']] == old(accounts)[sel[j']].(userId := Some(UserIdFor(base + j' + 1)))
      {
        counter := Some(counter.value + 1);
        var newUserId := UserIdFor(counter.value);
        accounts := accounts[sel[j] := accounts[sel[j]].(userId := Some(newUserId))];
        assert sel[..j + 1] == sel[..j] + [sel[j]];
      }
      assert sel[..|sel|] == sel;
    }
  }
}
