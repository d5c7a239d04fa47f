/** The transaction ledger and the small rules of the application server:
    field validation of the transaction routes, the balance the server derives
    from a user's transactions, the category listing with its de-duplication
    by name, and the required-field checks of sign-up and category creation.
    The SQL tables are sequences of rows in insertion (rowid) order. */
module TransactionServer {
  import opened Text
  import opened Calendar
  import opened Sorting

  /** A row of the `transactions` table. An empty `recurrenceInterval` stands
      for NULL. */
  datatype Transaction = Transaction(
    id: nat, userId: nat, txType: string, title: string, date: Date,
    category: string, amount: real, recurring: string, recurrenceInterval: string)

  /** The JSON body of a create or update request. An empty string is a field
      that is absent or empty (both falsy); an absent amount is `None`. */
  datatype TransactionRequest = TransactionRequest(
    txType: string, title: string, date: Option<Date>, category: string,
    amount: Option<real>, recurring: string, recurrenceInterval: string)

  datatype ApiError =
    | BadRequest(message: string)    // status 400
    | NotFound(message: string)      // status 404

  datatype Result<T> = Ok(value: T) | Err(error: ApiError)

  // ---------------------------------------------------------------------
  // Validation of POST and PUT /api/transactions

  /** `type && title && date && category && amount`: JavaScript truthiness,
      under which an amount of 0 counts as missing. */
  predicate HasAllFields(req: TransactionRequest)
  {
    && req.txType != "" && req.title != "" && req.date.Some? && req.category != ""
    && req.amount.Some? && req.amount.value != 0.0
  }

  /** POST /api/transactions: only the presence of the fields is checked. */
  function CreateRejection(req: TransactionRequest): (r: Option<ApiError>)
    ensures r.None? <==> HasAllFields(req)
    ensures r.Some? ==> r.value == BadRequest("All fields are required")
  {
    if !HasAllFields(req) then Some(BadRequest("All fields are required")) else None
  }

  /** PUT /api/transactions/:id: presence, then a positive amount, then a
      known type, each with its own message. */
  function UpdateRejection(req: TransactionRequest): (r: Option<ApiError>)
    ensures r.None? <==>
      HasAllFields(req) && req.amount.value > 0.0 && req.txType in ["Deposit", "Withdrawal"]
    ensures !HasAllFields(req) ==> r == Some(BadRequest("All fields are required"))
    ensures HasAllFields(req) && req.amount.value <= 0.0 ==>
      r == Some(BadRequest("Amount must be greater than 0"))
    ensures HasAllFields(req) && req.amount.value > 0.0 && req.txType !in ["Deposit", "Withdrawal"] ==>
      r == Some(BadRequest("Invalid transaction type"))
  {
    if !HasAllFields(req) then Some(BadRequest("All fields are required"))
    else if req.amount.value <= 0.0 then Some(BadRequest("Amount must be greater than 0"))
    else if req.txType != "Deposit" && req.txType != "Withdrawal" then Some(BadRequest("Invalid transaction type"))
    else None
  }

  /** Every request the update route accepts, the create route accepts too. */
  lemma UpdateIsStricterThanCreate(req: TransactionRequest)
    ensures UpdateRejection(req).None? ==> CreateRejection(req).None?
  {
  }

  /** The converse fails: creation stores a negative amount and an unknown
      type, which an update of the same row would refuse. */
  lemma CreateAcceptsWhatUpdateRefuses()
    ensures exists req :: CreateRejection(req).None? && UpdateRejection(req).Some?
  {
    var req := TransactionRequest("Refund", "t", Some(Date(2024, 1, 1)), "c", Some(-5.0), "", "");
    assert CreateRejection(req).None? && UpdateRejection(req).Some?;
  }

  /** `recurring || 'one-time'`. */
  function StoredRecurring(req: TransactionRequest): (r: string)
    ensures r != ""
    ensures req.recurring != "" ==> r == req.recurring
  {
    if req.recurring == "" then "one-time" else req.recurring
  }

  /** The row a validated request is stored as. */
  function RowFrom(id: nat, userId: nat, req: TransactionRequest): (t: Transaction)
    requires HasAllFields(req)
  {
    Transaction(id, userId, req.txType, req.title, req.date.value, req.category,
                req.amount.value, StoredRecurring(req), req.recurrenceInterval)
  }

  /** Position of the row with this id owned by this user, or `|rows|`. */
  function FindRow(rows: seq<Transaction>, id: nat, userId: nat): (i: nat)
    ensures i <= |rows|
    ensures i < |rows| ==> rows[i].id == id && rows[i].userId == userId
    ensures forall j :: 0 <= j < i ==> !(rows[j].id == id && rows[j].userId == userId)
    decreases |rows|
  {
    if |rows| == 0 then 0
    else if rows[0].id == id && rows[0].userId == userId then 0
    else 1 + FindRow(rows[1..], id, userId)
  }

  /** The `transactions` table with its id counter. */
  class TransactionTable {
    var rows: seq<Transaction>
    var nextId: nat

    ghost predicate Valid()
      reads this
    {
      && (forall i :: 0 <= i < |rows| ==> rows[i].id < nextId)
      && (forall i, j :: 0 <= i < j < |rows| ==> rows[i].id != rows[j].id)
    }

    constructor ()
      ensures Valid() && rows == [] && nextId == 1
    {
      rows := [];
      nextId := 1;
    }

    /** POST /api/transactions. */
    method Create(userId: nat, req: TransactionRequest) returns (res: Result<nat>)
      requires Valid()
      modifies this
      ensures Valid()
      ensures CreateRejection(req).Some? ==>
        res == Err(CreateRejection(req).value) && rows == old(rows) && nextId == old(nextId)
      ensures CreateRejection(req).None? ==>
        && res == Ok(old(nextId))
        && rows == old(rows) + [RowFrom(old(nextId), userId, req)]
        && nextId == old(nextId) + 1
    {
      var rejection := CreateRejection(req);
      if rejection.Some? {
        return Err(rejection.value);
      }
      var id := nextId;
      rows := rows + [RowFrom(id, userId, req)];
      nextId := nextId + 1;
      res := Ok(id);
    }

    /** PUT /api/transactions/:id: the row keeps its id and owner and takes
        every other column from the request. */
    method Update(userId: nat, id: nat, req: TransactionRequest) returns (res: Result<Transaction>)
      requires Valid()
      modifies this
      ensures Valid() && nextId == old(nextId)
      ensures UpdateRejection(req).Some? ==> res == Err(UpdateRejection(req).value) && rows == old(rows)
      ensures UpdateRejection(req).None? && FindRow(old(rows), id, userId) == |old(rows)| ==>
        res == Err(NotFound("Transaction not found or unauthorized")) && rows == old(rows)
      ensures UpdateRejection(req).None? && FindRow(old(rows), id, userId) < |old(rows)| ==>
        var i := FindRow(old(rows), id, userId);
        && rows == old(rows)[i := RowFrom(id, userId, req)]
        && res == Ok(rows[i])
    {
      var rejection := UpdateRejection(req);
      if rejection.Some? {
        return Err(rejection.value);
      }
      var i := FindRow(rows, id, userId);
      if i == |rows| {
        return Err(NotFound("Transaction not found or unauthorized"));
      }
      rows := rows[i := RowFrom(id, userId, req)];
      res := Ok(rows[i]);
    }
  }

  // ---------------------------------------------------------------------
  // GET /api/balance

  /** `CASE WHEN type = 'Deposit' THEN amount ELSE -amount END`. */
  function SignedAmount(t: Transaction): real
  {
    if t.txType == "Deposit" then t.amount else -t.amount
  }

  /** `COALESCE(SUM(...), 0)` over the given rows. */
  function Balance(rows: seq<Transaction>): (b: real)
    ensures rows == [] ==> b == 0.0
    decreases |rows|
  {
    if |rows| == 0 then 0.0 else Balance(rows[..|rows| - 1]) + SignedAmount(rows[|rows| - 1])
  }

  /** The user's own rows, in table order (`WHERE user_id = ?`). */
  function UserRows(rows: seq<Transaction>, userId: nat): (r: seq<Transaction>)
    ensures forall t :: t in r <==> t in rows && t.userId == userId
    decreases |rows|
  {
    if |rows| == 0 then []
    else
      var prefix := UserRows(rows[..|rows| - 1], userId);
      assert forall t :: t in rows <==> t in rows[..|rows| - 1] || t == rows[|rows| - 1] by {
        assert rows == rows[..|rows| - 1] + [rows[|rows| - 1]];
      }
      if rows[|rows| - 1].userId == userId then prefix + [rows[|rows| - 1]] else prefix
  }

  /** The balance the server reports for a user. */
  function UserBalance(rows: seq<Transaction>, userId: nat): real
  {
    Balance(UserRows(rows, userId))
  }

  /** The sum of the amounts of the deposits (`deposits`) or of all other
      rows (`!deposits`). */
  function AmountWhere(rows: seq<Transaction>, deposits: bool): real
    decreases |rows|
  {
    if |rows| == 0 then 0.0
    else
      var last := rows[|rows| - 1];
      AmountWhere(rows[..|rows| - 1], deposits) + (if (last.txType == "Deposit") == deposits then last.amount else 0.0)
  }

  /** The balance is the deposits minus everything else. */
  lemma {:induction false} BalanceIsDepositsMinusOthers(rows: seq<Transaction>)
    ensures Balance(rows)
            == AmountWhere(rows, true) - AmountWhere(rows, false)
    decreases |rows|
  {
    if |rows| > 0 {
      BalanceIsDepositsMinusOthers(rows[..|rows| - 1]);
    }
  }

  lemma {:induction false} BalanceAppend(a: seq<Transaction>, b: seq<Transaction>)
    ensures Balance(a + b) == Balance(a) + Balance(b)
    decreases |b|
  {
    if |b| == 0 {
      assert a + b == a;
    } else {
      assert (a + b)[..|a + b| - 1] == a + b[..|b| - 1];
      BalanceAppend(a, b[..|b| - 1]);
    }
  }

  /** SQL sums rows in no particular order: any reordering has the same
      balance. */
  lemma {:induction false} BalancePermutation(a: seq<Transaction>, b: seq<Transaction>)
    requires multiset(a) == multiset(b)
    ensures Balance(a) == Balance(b)
    decreases |a|
  {
    if |a| == 0 {
      assert |b| == |multiset(b)| == 0;
    } else {
      var x := a[|a| - 1];
      var front := a[..|a| - 1];
      assert a == front + [x];
      assert x in multiset(b);
      var k :| 0 <= k < |b| && b[k] == x;
      assert b == b[..k] + [x] + b[k + 1..];
      var rest := b[..k] + b[k + 1..];
      assert multiset(b) == multiset(b[..k]) + multiset{x} + multiset(b[k + 1..]);
      assert multiset(a) == multiset(front) + multiset{x};
      assert multiset(rest) == multiset(b[..k]) + multiset(b[k + 1..]);
      forall y ensures multiset(front)[y] == multiset(rest)[y] {
        assert multiset(a)[y] == multiset(front)[y] + multiset{x}[y];
        assert multiset(b)[y] == multiset(b[..k])[y] + multiset{x}[y] + multiset(b[k + 1..])[y];
      }
      assert multiset(front) == multiset(rest);
      BalancePermutation(front, rest);
      BalanceAppend(b[..k], b[k + 1..]);
      BalanceAppend(b[..k] + [x], b[k + 1..]);
      BalanceAppend(b[..k], [x]);
      assert Balance([x]) == SignedAmount(x) by {
        assert [x][..0] == [];
      }
    }
  }

  // ---------------------------------------------------------------------
  // GET /api/categories

  /** A row of the `categories` table; the defaults have no owner. */
  datatype Category = Category(id: nat, userId: Option<nat>, name: string, emoji: string, isDefault: bool)

  /** The three rows the server inserts at start-up. */
  function DefaultCategories(): seq<Category>
  {
    [ Category(1, None, "Food", "🍔", true),
      Category(2, None, "Transport", "🚌", true),
      Category(3, None, "Utilities", "💡", true) ]
  }

  /** Binary collation: code-point lexicographic order. */
  predicate StrLe(a: string, b: string)
    decreases |a|
  {
    |a| == 0 || (|b| > 0 && (a[0] < b[0] || (a[0] == b[0] && StrLe(a[1..], b[1..]))))
  }

  lemma {:induction false} StrLeTotal(a: string, b: string)
    ensures StrLe(a, b) || StrLe(b, a)
    decreases |a|
  {
    if |a| > 0 && |b| > 0 && a[0] == b[0] {
      StrLeTotal(a[1..], b[1..]);
    }
  }

  lemma {:induction false} StrLeTransitive(a: string, b: string, c: string)
    requires StrLe(a, b) && StrLe(b, c)
    ensures StrLe(a, c)
    decreases |a|
  {
    if |a| > 0 && a[0] == b[0] && b[0] == c[0] {
      StrLeTransitive(a[1..], b[1..], c[1..]);
    }
  }

  /** `ORDER BY is_default DESC, name ASC`. */
  predicate CategoryLe(a: Category, b: Category)
  {
    (a.isDefault && !b.isDefault) || (a.isDefault == b.isDefault && StrLe(a.name, b.name))
  }

  lemma CategoryOrder()
    ensures TotalPreorder(CategoryLe)
  {
    forall a: Category, b: Category ensures CategoryLe(a, b) || CategoryLe(b, a) {
      StrLeTotal(a.name, b.name);
    }
    forall a: Category, b: Category, c: Category | CategoryLe(a, b) && CategoryLe(b, c)
      ensures CategoryLe(a, c)
    {
      if a.isDefault == b.isDefault == c.isDefault {
        StrLeTransitive(a.name, b.name, c.name);
      }
    }
  }

  predicate VisibleTo(c: Category, userId: nat)
  {
    c.isDefault || c.userId == Some(userId)
  }

  function Visible(table: seq<Category>, userId: nat): (r: seq<Category>)
    ensures forall c :: c in r <==> c in table && VisibleTo(c, userId)
    decreases |table|
  {
    if |table| == 0 then []
    else
      assert table == [table[0]] + table[1..];
      if VisibleTo(table[0], userId) then [table[0]] + Visible(table[1..], userId)
      else Visible(table[1..], userId)
  }

  /** The rows the query returns: defaults and the caller's own, defaults
      first, then by name. */
  function VisibleCategories(table: seq<Category>, userId: nat): (r: seq<Category>)
    ensures multiset(r) == multiset(Visible(table, userId))
    ensures forall c :: c in r <==> c in table && VisibleTo(c, userId)
    ensures Sorted(r, CategoryLe)
  {
    CategoryOrder();
    SortBy(Visible(table, userId), CategoryLe)
  }

  function Names(cs: seq<Category>): set<string>
  {
    set c | c in cs :: c.name
  }

  /** The index of the last row with this name, or -1. */
  function LastIndexOfName(cs: seq<Category>, name: string): (k: int)
    ensures -1 <= k < |cs|
    ensures k >= 0 ==> cs[k].name == name
    ensures forall j :: k < j < |cs| ==> cs[j].name != name
    ensures k >= 0 <==> name in Names(cs)
    decreases |cs|
  {
    assert |cs| > 0 ==> cs == cs[..|cs| - 1] + [cs[|cs| - 1]];
    if |cs| == 0 then -1
    else if cs[|cs| - 1].name == name then |cs| - 1
    else LastIndexOfName(cs[..|cs| - 1], name)
  }

  /** The index of the first row with this name, or `|cs|`. */
  function FirstIndexOfName(cs: seq<Category>, name: string): (k: nat)
    ensures k <= |cs|
    ensures k < |cs| ==> cs[k].name == name
    ensures forall j :: 0 <= j < k ==> cs[j].name != name
    decreases |cs|
  {
    if |cs| == 0 then 0
    else if cs[0].name == name then 0
    else 1 + FirstIndexOfName(cs[1..], name)
  }

  /** The keys of `new Map(cs.map(c => [c.name, c]))`, in insertion order. */
  function FirstSeenNames(cs: seq<Category>): (names: seq<string>)
    ensures forall n :: n in names <==> n in Names(cs)
    ensures Distinct(names)
    ensures forall a, b :: 0 <= a < b < |names| ==>
      FirstIndexOfName(cs, names[a]) < FirstIndexOfName(cs, names[b])
    decreases |cs|
  {
    if |cs| == 0 then []
    else
      var front := cs[..|cs| - 1];
      var last := cs[|cs| - 1];
      var names := FirstSeenNames(front);
      assert cs == front + [last];
      FirstSeenNamesStep(front, last, names);
      if last.name in Names(front) then names else names + [last.name]
  }

  /** One more row either repeats a name already seen or adds its name at
      the end, after every name that first occurred earlier. */
  lemma FirstSeenNamesStep(front: seq<Category>, last: Category, names: seq<string>)
    requires forall n :: n in names <==> n in Names(front)
    requires forall a, b :: 0 <= a < b < |names| ==>
      FirstIndexOfName(front, names[a]) < FirstIndexOfName(front, names[b])
    ensures Names(front + [last]) == Names(front) + {last.name}
    ensures forall a, b :: 0 <= a < b < |names| ==>
      FirstIndexOfName(front + [last], names[a]) < FirstIndexOfName(front + [last], names[b])
    ensures last.name !in Names(front) ==> forall a :: 0 <= a < |names| ==>
      FirstIndexOfName(front + [last], names[a]) < FirstIndexOfName(front + [last], last.name)
  {
    var cs := front + [last];
    assert Names(cs) == Names(front) + {last.name};
    FirstIndexOfPrefix(front, last);
    assert forall k :: 0 <= k < |names| ==> names[k] in Names(front);
  }

  /** Appending a row does not move the first occurrence of a name already
      present, and a new name first occurs at the appended row. */
  lemma FirstIndexOfPrefix(front: seq<Category>, last: Category)
    ensures forall n :: n in Names(front) ==>
      FirstIndexOfName(front + [last], n) == FirstIndexOfName(front, n) < |front|
    ensures last.name !in Names(front) ==> FirstIndexOfName(front + [last], last.name) == |front|
  {
    var cs := front + [last];
    assert forall j :: 0 <= j < |front| ==> cs[j] == front[j];
    forall n | n in Names(front)
      ensures FirstIndexOfName(cs, n) == FirstIndexOfName(front, n) < |front|
    {
      var c :| c in front && c.name == n;
      var k :| 0 <= k < |front| && front[k] == c;
      assert FirstIndexOfName(front, n) <= k;
    }
    assert last.name !in Names(front) ==> forall j :: 0 <= j < |front| ==> cs[j].name != last.name;
    assert cs[|front|] == last;
  }

  /** `Array.from(new Map(cs.map(c => [c.name, c])).values())`: one row per
      name, at the position where the name first appeared, holding the last
      row with that name. */
  function DedupByName(cs: seq<Category>): (r: seq<Category>)
    ensures Names(r) == Names(cs)
    ensures forall i, j :: 0 <= i < j < |r| ==> r[i].name != r[j].name
    ensures forall c :: c in r ==> c in cs
    ensures forall i :: 0 <= i < |r| ==> r[i].name in Names(cs) && r[i] == cs[LastIndexOfName(cs, r[i].name)]
    ensures forall i, j :: 0 <= i < j < |r| ==>
      FirstIndexOfName(cs, r[i].name) < FirstIndexOfName(cs, r[j].name)
  {
    var names := FirstSeenNames(cs);
    var r := seq(|names|, k requires 0 <= k < |names| => cs[LastIndexOfName(cs, names[k])]);
    assert forall k :: 0 <= k < |r| ==> r[k].name == names[k];
    assert Names(r) == Names(cs) by {
      forall n | n in Names(cs) ensures n in Names(r) {
        var k :| 0 <= k < |names| && names[k] == n;
        assert r[k] in r;
      }
    }
    r
  }

  /** What GET /api/categories returns. */
  function ListCategories(table: seq<Category>, userId: nat): (r: seq<Category>)
    ensures forall c :: c in r ==> c in table && VisibleTo(c, userId)
    ensures Names(r) == Names(Visible(table, userId))
  {
    var rows := VisibleCategories(table, userId);
    assert Names(rows) == Names(Visible(table, userId));
    DedupByName(rows)
  }

  /** The start-up rows are the three defaults, with distinct names. */
  lemma DefaultCategoryNames()
    ensures forall c :: c in DefaultCategories() ==> c.isDefault && c.userId.None?
    ensures Names(DefaultCategories()) == {"Food", "Transport", "Utilities"}
  {
    var d := DefaultCategories();
    assert forall c :: c in d ==> c == d[0] || c == d[1] || c == d[2];
    assert d[0].name == "Food" && d[1].name == "Transport" && d[2].name == "Utilities";
  }

  /** While the table holds only defaults, every user is offered exactly
      them, one entry per name; at start-up these are Food, Transport and
      Utilities. */
  lemma DefaultsListedForEveryone(table: seq<Category>, userId: nat)
    requires forall c :: c in table ==> c.isDefault
    ensures forall c :: c in ListCategories(table, userId) ==> c.isDefault
    ensures Names(ListCategories(table, userId)) == Names(table)
    ensures table == DefaultCategories() ==>
      Names(ListCategories(table, userId)) == {"Food", "Transport", "Utilities"}
  {
    assert forall c :: c in Visible(table, userId) <==> c in table;
    assert Names(Visible(table, userId)) == Names(table);
    DefaultCategoryNames();
  }

  /** In a listing ordered defaults first, the last row with the name of a
      non-default row is itself non-default. */
  lemma LastOfNameAfterOwn(rows: seq<Category>, k: nat)
    requires Sorted(rows, CategoryLe)
    requires k < |rows| && !rows[k].isDefault
    ensures !rows[LastIndexOfName(rows, rows[k].name)].isDefault
  {
    var last := LastIndexOfName(rows, rows[k].name);
    assert k <= last;
    if k < last {
      assert CategoryLe(rows[k], rows[last]);
    }
  }

  /** A user's own category with the name of a default category takes the
      default's place in the listing. */
  lemma OwnCategoryOverridesDefault(table: seq<Category>, userId: nat, own: Category)
    requires own in table && own.userId == Some(userId) && !own.isDefault
    ensures exists c :: c in ListCategories(table, userId) && c.name == own.name && !c.isDefault
  {
    var rows := VisibleCategories(table, userId);
    assert own in rows;
    OwnRowSurvivesDedup(rows, own);
    assert DedupByName(rows) == ListCategories(table, userId);
  }

  /** Deduplicating a listing ordered defaults first keeps a non-default row
      for the name of every non-default row. */
  lemma OwnRowSurvivesDedup(rows: seq<Category>, own: Category)
    requires Sorted(rows, CategoryLe) && own in rows && !own.isDefault
    ensures exists c :: c in DedupByName(rows) && c.name == own.name && !c.isDefault
  {
    var r := DedupByName(rows);
    var k :| 0 <= k < |rows| && rows[k] == own;
    LastOfNameAfterOwn(rows, k);
    assert own.name in Names(rows);
    assert own.name in Names(r);
    var c :| c in r && c.name == own.name;
    var i :| 0 <= i < |r| && r[i] == c;
    assert c == rows[LastIndexOfName(rows, own.name)];
  }

  // ---------------------------------------------------------------------
  // POST /api/signup and POST /api/categories

  /** The checks of the sign-up route, before any hashing or insertion. */
  function SignupRejection(username: string, email: string, password: string, registered: set<string>)
    : (r: Option<ApiError>)
    ensures r.None? <==> username != "" && email != "" && password != "" && email !in registered
    ensures (username == "" || email == "" || password == "") ==>
      r == Some(BadRequest("Full name, email, and password are required"))
  {
    if username == "" || email == "" || password == "" then
      Some(BadRequest("Full name, email, and password are required"))
    else if email in registered then Some(BadRequest("Email already exists"))
    else None
  }

  /** Once an email has signed up, signing up again with it is refused. */
  lemma SignupEmailsStayUnique(username: string, email: string, password: string,
                               registered: set<string>, username': string, password': string)
    requires SignupRejection(username, email, password, registered).None?
    requires username' != "" && password' != ""
    ensures SignupRejection(username', email, password', registered + {email})
            == Some(BadRequest("Email already exists"))
  {
  }

  /** POST /api/categories requires both a name and an emoji. */
  function CategoryRejection(name: string, emoji: string): (r: Option<ApiError>)
    ensures r.None? <==> name != "" && emoji != ""
    ensures r.Some? ==> r.value == BadRequest("Name and emoji are required")
  {
    if name == "" || emoji == "" then Some(BadRequest("Name and emoji are required")) else None
  }
}
