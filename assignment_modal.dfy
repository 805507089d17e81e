/** The task-assignment dialog: the users it lists, its search filter, and the state it
    resets when it closes. */
module AssignmentModal {
  import opened Wrappers
  import opened Seqs
  import opened Text

  /** A row of the users table as the dialog receives it. */
  datatype User = User(id: int, name: string, email: string, avatarUrl: string)

  /** The search test: the lower-cased name or e-mail contains the lower-cased term. */
  predicate Matches(u: User, term: string) {
    Contains(ToLower(u.name), ToLower(term)) || Contains(ToLower(u.email), ToLower(term))
  }

  function MatchesTerm(term: string): User -> bool {
    u => Matches(u, term)
  }

  /** `filteredUsers`: the users the search term keeps, in list order. */
  function FilteredUsers(users: seq<User>, term: string): (r: seq<User>)
    ensures IsSubsequence(r, users)
    ensures forall u :: u in r <==> u in users && Matches(u, term)
    ensures forall u :: multiset(r)[u] == if Matches(u, term) then multiset(users)[u] else 0
  {
    FilterIsSubsequence(users, MatchesTerm(term));
    forall u ensures u in Filter(users, MatchesTerm(term)) <==> u in users && Matches(u, term) {
      FilterMembership(users, MatchesTerm(term), u);
    }
    forall u ensures multiset(Filter(users, MatchesTerm(term)))[u] ==
      if Matches(u, term) then multiset(users)[u] else 0 {
      FilterCount(users, MatchesTerm(term), u);
    }
    Filter(users, MatchesTerm(term))
  }

  /** An empty search term lists every user. */
  lemma EmptyTermKeepsAll(users: seq<User>)
    ensures FilteredUsers(users, "") == users
  {
    forall i | 0 <= i < |users| ensures MatchesTerm("")(users[i]) {
      ContainsEmpty(ToLower(users[i].name));
    }
    FilterKeepsAll(users, MatchesTerm(""));
  }

  /** Typing more of a term only narrows the list: the users kept for a longer term `t2`
      that contains `t1` are exactly those kept for `t2` among the users kept for `t1`. */
  lemma NarrowingTerm(users: seq<User>, t1: string, t2: string)
    requires Contains(t2, t1)
    ensures FilteredUsers(users, t2) == FilteredUsers(FilteredUsers(users, t1), t2)
    ensures forall u :: u in FilteredUsers(users, t2) ==> u in FilteredUsers(users, t1)
  {
    LowerKeepsContains(t2, t1);
    forall u | Matches(u, t2) ensures Matches(u, t1) {
      if Contains(ToLower(u.name), ToLower(t2)) {
        ContainsTransitive(ToLower(u.name), ToLower(t2), ToLower(t1));
      } else {
        ContainsTransitive(ToLower(u.email), ToLower(t2), ToLower(t1));
      }
    }
    assert forall u :: MatchesTerm(t2)(u) ==> MatchesTerm(t1)(u);
    FilterNarrow(users, MatchesTerm(t1), MatchesTerm(t2));
  }

  /** The outcome of loading `/api/users`. */
  datatype UsersReply = UsersLoaded(users: seq<User>) | UsersFailed

  const LoadUsersError := "Failed to load users. Please try again."

  /** The dialog's state. */
  class Modal {
    var isOpen: bool
    var searchTerm: string
    var users: seq<User>
    var loading: bool
    var error: Option<string>

    constructor ()
      ensures !isOpen && searchTerm == "" && users == [] && !loading && error == None
    {
      isOpen, searchTerm, users, loading, error := false, "", [], false, None;
    }

    /** Opening loads the users; a failed load keeps the old list and shows the error. */
    method Open(reply: UsersReply)
      modifies this
      ensures isOpen && !loading && searchTerm == old(searchTerm)
      ensures reply.UsersLoaded? ==> users == reply.users && error == None
      ensures reply.UsersFailed? ==> users == old(users) && error == Some(LoadUsersError)
    {
      isOpen := true;
      loading := true;
      error := None;
      match reply {
        case UsersLoaded(list) => users := list;
        case UsersFailed => error := Some(LoadUsersError);
      }
      loading := false;
    }

    /** Closing clears the search term and the error; the loaded users stay. */
    method Close()
      modifies this
      ensures !isOpen && searchTerm == "" && error == None
      ensures users == old(users) && loading == old(loading)
    {
      isOpen := false;
      searchTerm := "";
      error := None;
    }

    method Search(term: string)
      modifies this
      ensures searchTerm == term
      ensures isOpen == old(isOpen) && users == old(users) && error == old(error) && loading == old(loading)
    {
      searchTerm := term;
    }

    /** The list the dialog shows. */
    function Visible(): (r: seq<User>)
      reads this
      ensures r == FilteredUsers(users, searchTerm)
      ensures forall u :: u in r <==> u in users && Matches(u, searchTerm)
    {
      FilteredUsers(users, searchTerm)
    }

    /** Choosing a user hands the task id and that user to the board, then closes. */
    method Choose(taskId: int, u: User) returns (assignment: (int, User))
      modifies this
      ensures assignment == (taskId, u)
      ensures !isOpen && searchTerm == "" && error == None
      ensures users == old(users) && loading == old(loading)
    {
      assignment := (taskId, u);
      Close();
    }
  }
}
