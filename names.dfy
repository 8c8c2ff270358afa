/**
 * validateUsername: the three checks, in order, that a new user's name must
 * pass before anything is generated or written.
 */
module Names {
  import opened Wrappers
  import opened Text
  import opened Scanner
  import opened Peers
  import opened Errors

  /**
   * The name is required, must match `^[a-zA-Z0-9_]+$`, and its marker must
   * not already be a substring of the server configuration `conf`.
   */
  function ValidateUsername(u: string, conf: string): (r: Result<(), Failure>)
    ensures r.Ok? <==> IsUserName(u) && !Contains(conf, Marker(u))
    ensures r == Err(UsernameRequired) <==> u == []
    ensures r == Err(InvalidUsername) <==> u != [] && !IsUserName(u)
    ensures IsUserName(u) && Contains(conf, Marker(u)) ==> r == Err(UserExists(u))
  {
    if u == [] then Err(UsernameRequired)
    else if !AllInClass(u, WordChars) then Err(InvalidUsername)
    else if Contains(conf, Marker(u)) then Err(UserExists(u))
    else Ok(())
  }

  /**
   * The duplicate check is a substring test: a configuration holding the
   * marker of any extension `u + v` rejects `u` as already existing.
   */
  lemma {:induction false} ExtendedNameBlocks(u: string, v: string, conf: string)
    requires IsUserName(u)
    requires Contains(conf, Marker(u + v))
    ensures ValidateUsername(u, conf) == Err(UserExists(u))
  {
    assert Marker(u + v) == Marker(u) + v;
    if !Contains(conf, Marker(u)) {
      ExtensionNotContained(conf, Marker(u), v);
    }
  }

  /** An existing `john2` blocks adding `john`. */
  lemma {:induction false} John2BlocksJohn(conf: string)
    requires Contains(conf, Marker("john2"))
    ensures ValidateUsername("john", conf) == Err(UserExists("john"))
  {
    assert "john2" == "john" + "2";
    ExtendedNameBlocks("john", "2", conf);
  }

  /** Every name the listing reports is rejected as existing. */
  lemma {:induction false} ListedNameRejected(conf: string, j: nat)
    requires j < |ListedNames(conf)|
    ensures ValidateUsername(ListedNames(conf)[j], conf) == Err(UserExists(ListedNames(conf)[j]))
  {
    ScanFromCaptures(conf, MarkerPrefix, WordChars, 0);
    ScanOccurs(conf, MarkerPrefix, WordChars, j);
  }

  /** A name that passes validation is not among the listed names. */
  lemma {:induction false} AcceptedNameUnlisted(u: string, conf: string)
    requires ValidateUsername(u, conf).Ok?
    ensures u !in ListedNames(conf)
  {
    if u in ListedNames(conf) {
      var j :| 0 <= j < |ListedNames(conf)| && ListedNames(conf)[j] == u;
      ListedNameRejected(conf, j);
    }
  }

  /** Names with a space or punctuation are refused before the configuration is consulted. */
  lemma {:induction false} PunctuationRejected(conf: string)
    ensures ValidateUsername("bad name", conf) == Err(InvalidUsername)
    ensures ValidateUsername("user!", conf) == Err(InvalidUsername)
    ensures ValidateUsername("john_2", conf).Ok? <==> !Contains(conf, Marker("john_2"))
  {
    assert !InClass("bad name"[3], WordChars);
    assert !InClass("user!"[4], WordChars);
  }
}
