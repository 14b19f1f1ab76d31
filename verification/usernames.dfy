/** The username validator: `re.match(r'^[\w.@+-]+$', username)`.
    Because `$` also matches just before a final newline, one trailing '\n'
    is tolerated. The validator returns the username unchanged. */
module Usernames {
  import opened Common

  datatype UsernameError = InvalidUsername

  predicate IsAsciiLetter(c: char) {
    ('a' <= c <= 'z') || ('A' <= c <= 'Z')
  }

  /** `\w` restricted to ASCII: letters, digits and underscore. */
  predicate IsWordChar(c: char) {
    IsAsciiLetter(c) || ('0' <= c <= '9') || c == '_'
  }

  /** The character class `[\w.@+-]`. */
  predicate IsUsernameChar(c: char) {
    IsWordChar(c) || c == '.' || c == '@' || c == '+' || c == '-'
  }

  predicate AllUsernameChars(s: string) {
    forall i :: 0 <= i < |s| ==> IsUsernameChar(s[i])
  }

  /** What `^[\w.@+-]+` has to cover: the string less one final newline. */
  function MatchedPart(u: string): (body: string)
    ensures body == u || (|u| >= 1 && u[|u| - 1] == '\n' && body == u[..|u| - 1])
  {
    if |u| >= 1 && u[|u| - 1] == '\n' then u[..|u| - 1] else u
  }

  function ValidateUsername(u: string): (r: Result<string, UsernameError>)
    // accepted names come back unchanged
    ensures r.Ok? ==> r.value == u
    // accepted iff every character is in the class, the last one possibly a
    // newline, and at least one character precedes that newline
    ensures r.Ok? <==>
      && |u| >= 1
      && u != "\n"
      && (forall i :: 0 <= i < |u| ==> IsUsernameChar(u[i]) || (i == |u| - 1 && u[i] == '\n'))
  {
    var body := MatchedPart(u);
    if |body| >= 1 && AllUsernameChars(body) then Ok(u) else Err(InvalidUsername)
  }

  /** The empty username is rejected. */
  lemma EmptyRejected()
    ensures ValidateUsername("") == Err(InvalidUsername)
  {
  }

  /** A non-empty name over the class is accepted, with or without one trailing newline. */
  lemma AcceptedForms(w: string)
    requires |w| >= 1 && AllUsernameChars(w)
    ensures ValidateUsername(w) == Ok(w)
    ensures ValidateUsername(w + "\n") == Ok(w + "\n")
  {
    assert (w + "\n")[..|w|] == w;
  }

  /** Any other character anywhere but a final newline rejects the name. */
  lemma RejectedChar(u: string, i: nat)
    requires i < |u| && !IsUsernameChar(u[i])
    requires !(i == |u| - 1 && u[i] == '\n')
    ensures ValidateUsername(u) == Err(InvalidUsername)
  {
  }

  /** Two trailing newlines are too many: only the last one is excused. */
  lemma DoubleNewlineRejected(w: string)
    ensures ValidateUsername(w + "\n\n") == Err(InvalidUsername)
  {
    RejectedChar(w + "\n\n", |w|);
  }
}
