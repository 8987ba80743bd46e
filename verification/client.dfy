/** The JSON records the web pages receive from the server, as the pages
    read them: statuses, roles and categories are plain strings, and ids
    are numbers. */
module Client {
  import opened Wrappers
  import Text

  datatype Course = Course(id: int, title: string, description: string, category: string)

  datatype Enrollment = Enrollment(id: int, courseId: int, status: string, progress: int)

  /** A row of the admin's user list or of the user pickers. */
  datatype User = User(id: int, name: string, email: string, role: string, lastLogin: Option<int>)

  datatype Notification = Notification(id: int, title: string, message: string, read: bool)

  /** The user search of the admin pages: the term, ignoring case, occurs
      in the name, the email or the role. */
  predicate MatchesUserSearch(u: User, term: string) {
    var t := Text.Lower(term);
    Text.Contains(Text.Lower(u.name), t) || Text.Contains(Text.Lower(u.email), t) || Text.Contains(Text.Lower(u.role), t)
  }

  /** Every term matches when it is empty. */
  lemma EmptySearchMatches(u: User)
    ensures MatchesUserSearch(u, "")
  {
    assert Text.Lower("") == "";
    Text.ContainsEmpty(Text.Lower(u.name));
  }
}
