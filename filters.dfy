/** `filterByRating` and `filterActiveUsers`: order-preserving filters over
    lists of records. */
module Filters {
  import opened Seqs

  /** A rated item. */
  datatype Item = Item(title: string, rating: real)

  /** A user account. */
  datatype User = User(id: real, name: string, email: string, isActive: bool)

  /** The rating filter's test: a rating from 4 to 5, both included. */
  predicate HighlyRated(item: Item) {
    item.rating >= 4.0 && item.rating <= 5.0
  }

  /** The activity filter's test. */
  predicate IsActive(user: User) {
    user.isActive
  }

  /** Exactly the items rated from 4 to 5, each as often as in `items`, in
      their original order. */
  function FilterByRating(items: seq<Item>): (r: seq<Item>)
    ensures forall x :: x in r ==> x in items && 4.0 <= x.rating <= 5.0
    ensures forall x :: x in items && 4.0 <= x.rating <= 5.0 ==> x in r
    ensures forall x :: multiset(r)[x] == if 4.0 <= x.rating <= 5.0 then multiset(items)[x] else 0
    ensures IsSubsequence(r, items)
  {
    Filter(items, HighlyRated)
  }

  /** Exactly the active users, each as often as in `users`, in their
      original order. */
  function FilterActiveUsers(users: seq<User>): (r: seq<User>)
    ensures forall u :: u in r ==> u in users && u.isActive
    ensures forall u :: u in users && u.isActive ==> u in r
    ensures forall u :: multiset(r)[u] == if u.isActive then multiset(users)[u] else 0
    ensures IsSubsequence(r, users)
  {
    Filter(users, IsActive)
  }

  /** Filtering by rating a second time changes nothing. */
  lemma FilterByRatingIdempotent(items: seq<Item>)
    ensures FilterByRating(FilterByRating(items)) == FilterByRating(items)
  {
    FilterIdempotent(items, HighlyRated);
  }

  /** Filtering active users a second time changes nothing. */
  lemma FilterActiveUsersIdempotent(users: seq<User>)
    ensures FilterActiveUsers(FilterActiveUsers(users)) == FilterActiveUsers(users)
  {
    FilterIdempotent(users, IsActive);
  }

  /** A list of highly rated items is returned unchanged. */
  lemma FilterByRatingKeepsRatedList(items: seq<Item>)
    requires forall x :: x in items ==> 4.0 <= x.rating <= 5.0
    ensures FilterByRating(items) == items
  {
    FilterAllPass(items, HighlyRated);
  }

  /** Filtering two lists and concatenating is filtering their concatenation. */
  lemma FilterByRatingAppend(a: seq<Item>, b: seq<Item>)
    ensures FilterByRating(a + b) == FilterByRating(a) + FilterByRating(b)
  {
    FilterAppend(a, b, HighlyRated);
  }

  /** A list of active users is returned unchanged. */
  lemma FilterActiveUsersKeepsActiveList(users: seq<User>)
    requires forall u :: u in users ==> u.isActive
    ensures FilterActiveUsers(users) == users
  {
    FilterAllPass(users, IsActive);
  }

  /** Filtering two lists and concatenating is filtering their concatenation. */
  lemma FilterActiveUsersAppend(a: seq<User>, b: seq<User>)
    ensures FilterActiveUsers(a + b) == FilterActiveUsers(a) + FilterActiveUsers(b)
  {
    FilterAppend(a, b, IsActive);
  }
}
