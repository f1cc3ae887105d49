/** Rows of the four database tables the routes read and write: `admins`,
    `blog_posts`, `reviews` and `contacts`. Timestamps are integers. */
module Tables {
  import opened Common

  datatype Admin = Admin(
    id: int,
    username: string,
    email: string,
    name: string,
    password: string,   // the stored password hash
    active: bool)

  datatype Post = Post(
    id: int,
    title: string,
    slug: string,
    excerpt: string,
    content: string,
    image: Option<string>,
    category: string,
    tags: Option<string>,
    metaTitle: Option<string>,
    metaDescription: Option<string>,
    readTime: int,
    views: int,
    published: bool,
    featured: bool,
    authorId: int,
    createdAt: int,
    updatedAt: int)

  datatype Review = Review(
    id: int,
    name: string,
    email: string,
    rating: int,
    comment: string,
    approved: bool,
    createdAt: int)

  datatype Contact = Contact(
    id: int,
    name: string,
    phone: string,
    email: string,
    postalCode: string,
    createdAt: int)

  /** The position of the first admin row that satisfies `wanted`, or the
      table's length when none does. */
  function FirstWanted(admins: seq<Admin>, wanted: Admin -> bool): (k: nat)
    ensures k <= |admins|
    ensures k < |admins| ==> wanted(admins[k])
    ensures forall j :: 0 <= j < k ==> !wanted(admins[j])
  {
    if admins == [] then 0
    else if wanted(admins[0]) then 0
    else 1 + FirstWanted(admins[1..], wanted)
  }

  /** The first admin row that satisfies `wanted`, as `adminRows[0]` after a
      filtered SELECT. */
  function FindAdmin(admins: seq<Admin>, wanted: Admin -> bool): (r: Option<Admin>)
    ensures r.Some? ==> r.value in admins && wanted(r.value)
    ensures r.None? <==> forall i :: 0 <= i < |admins| ==> !wanted(admins[i])
  {
    var k := FirstWanted(admins, wanted);
    if k < |admins| then Some(admins[k]) else None
  }

  /** Tables on which two conditions agree row by row have their first
      match at the same place. */
  lemma FirstWantedAgrees(admins: seq<Admin>, wanted: Admin -> bool, admins': seq<Admin>, wanted': Admin -> bool)
    requires |admins'| == |admins|
    requires forall i :: 0 <= i < |admins| ==> wanted'(admins'[i]) == wanted(admins[i])
    ensures FirstWanted(admins', wanted') == FirstWanted(admins, wanted)
  {}

  /** The key columns the session code looks admins up by. */
  function UsernameOf(a: Admin): string { a.username }

  function IdOf(a: Admin): int { a.id }

  /** `WHERE <column> = ? AND active = 1`, where `column` reads the key
      column of a row: the username at login, the id in a session check. */
  function FindActive<K(==)>(admins: seq<Admin>, column: Admin -> K, key: K): (r: Option<Admin>)
    ensures r.Some? ==> r.value in admins && r.value.active && column(r.value) == key
    ensures r.None? <==> forall i :: 0 <= i < |admins| ==> !(admins[i].active && column(admins[i]) == key)
  {
    FindAdmin(admins, (a: Admin) => a.active && column(a) == key)
  }

  /** `LEFT JOIN admins a ON bp.authorId = a.id`: the author row, if any. */
  function FindById(admins: seq<Admin>, id: int): (r: Option<Admin>)
    ensures r.Some? ==> r.value in admins && r.value.id == id
    ensures r.None? <==> forall i :: 0 <= i < |admins| ==> admins[i].id != id
  {
    FindAdmin(admins, (a: Admin) => a.id == id)
  }

  /** `admins.id` is the table's primary key. */
  predicate AdminIdsUnique(admins: seq<Admin>) {
    forall i, j :: 0 <= i < j < |admins| ==> admins[i].id != admins[j].id
  }

  /** With unique ids, the join finds exactly the row that has the id. */
  lemma FindByIdUnique(admins: seq<Admin>, a: Admin)
    requires AdminIdsUnique(admins)
    requires a in admins
    ensures FindById(admins, a.id) == Some(a)
  {
    var r := FindById(admins, a.id);
    var k :| 0 <= k < |admins| && admins[k] == a;
    assert r.Some?;
    var m :| 0 <= m < |admins| && admins[m] == r.value;
    assert m == k;
  }
}
