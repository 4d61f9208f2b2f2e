/** The password handling of the User record (models/user.go). The bcrypt
    hash is foreign code; it is passed in as a function from the plaintext
    to the hash, or None when hashing fails. Saving to the database is
    represented by the save's outcome. The password is a byte string, as a
    Go string is, so its length is Go's `len`: a count of bytes. */
module Users {
  import opened Common
  import opened Utf8

  /** The reading of the bcrypt hash's outcome for a plaintext. */
  type Hasher = Bytes -> Option<Bytes>

  /** The bytes of "$2a$", "$2b$" and "$2y$". */
  const Prefix2a: Bytes := [0x24, 0x32, 0x61, 0x24]
  const Prefix2b: Bytes := [0x24, 0x32, 0x62, 0x24]
  const Prefix2y: Bytes := [0x24, 0x32, 0x79, 0x24]

  /** A string that already has the shape of a bcrypt hash: at least 60
      bytes, starting with one of the prefixes $2a$, $2b$, $2y$. */
  predicate LooksHashed(p: Bytes)
  {
    |p| >= 60 && (Prefix2a <= p || Prefix2b <= p || Prefix2y <= p)
  }

  /** BeforeSave hashes a password exactly when it is non-empty and does
      not already look like a bcrypt hash. */
  predicate NeedsHash(p: Bytes)
  {
    p != [] && !LooksHashed(p)
  }

  /** What the BeforeSave hook leaves in Password, or None when the hook
      returns the hash error. */
  function HookedPassword(p: Bytes, hash: Hasher): (r: Option<Bytes>)
    ensures !NeedsHash(p) ==> r == Some(p)
    ensures NeedsHash(p) ==> r == hash(p)
  {
    if p != [] && (|p| < 60 || (!(Prefix2a <= p) && !(Prefix2b <= p) && !(Prefix2y <= p))) then hash(p)
    else Some(p)
  }

  /** A hasher whose outputs have bcrypt's shape (bcrypt's own output is a
      60-character "$2a$..." string). */
  ghost predicate BcryptShaped(hash: Hasher)
  {
    forall p: Bytes :: hash(p).Some? ==> LooksHashed(hash(p).value)
  }

  /** Saving twice hashes once: with a bcrypt-shaped hasher, a password the
      hook has processed passes the hook unchanged. */
  lemma HookIdempotent(p: Bytes, hash: Hasher)
    requires BcryptShaped(hash)
    requires HookedPassword(p, hash).Some?
    ensures HookedPassword(HookedPassword(p, hash).value, hash) == HookedPassword(p, hash)
  {
    if NeedsHash(p) {
      assert LooksHashed(hash(p).value);
    }
  }

  /** The length test counts bytes: "$2a$" followed by n copies of 一 is a
      string of n + 4 characters and 3n + 4 bytes, so from n = 19 on (61
      bytes, 23 characters) the hook keeps it unhashed. */
  lemma LengthCountsBytes(hash: Hasher, n: nat)
    requires n >= 19
    ensures var p := Prefix2a + Repeat(Yi, n);
      && |p| == 3 * n + 4 && Valid(p) && RuneCount(p) == n + 4
      && HookedPassword(p, hash) == Some(p)
  {
    var q := Repeat(Yi, n);
    var p := Prefix2a + q;
    YiRun(n);
    AsciiRunes(Prefix2a, 0);
    ValidConcat(Prefix2a, q);
    assert p[..4] == Prefix2a;
    assert LooksHashed(p);
  }

  /** The outcome of ChangePassword's db.Save. */
  datatype SaveOutcome = HookFailed | DbFailed(reason: string) | Saved(password: Bytes)

  class User {
    var username: string
    var password: Bytes
    var email: string
    var lastLogin: Option<int>

    constructor (username: string, password: Bytes, email: string)
      ensures this.username == username && this.password == password && this.email == email
      ensures lastLogin == None
    {
      this.username := username;
      this.password := password;
      this.email := email;
      lastLogin := None;
    }

    /** The GORM BeforeSave hook: hash the password when needed. On a hash
        error the hook fails and Password keeps its old value. */
    method BeforeSave(hash: Hasher) returns (failed: bool)
      modifies this`password
      ensures failed <==> HookedPassword(old(password), hash).None?
      ensures !failed ==> password == HookedPassword(old(password), hash).value
      ensures failed ==> password == old(password)
      ensures old(password) == [] ==> !failed && password == []
      ensures LooksHashed(old(password)) ==> !failed && password == old(password)
    {
      if password != [] {
        if |password| < 60 || (!(Prefix2a <= password) && !(Prefix2b <= password) && !(Prefix2y <= password)) {
          var hashed := hash(password);
          if hashed.None? {
            return true;
          }
          password := hashed.value;
        }
      }
      return false;
    }

    /** ChangePassword: store the new plaintext in the record and save it;
        the save runs the hook, which decides whether to hash. The database
        is written only when the hook succeeds. */
    method ChangePassword(newPassword: Bytes, hash: Hasher, db: Outcome) returns (r: SaveOutcome)
      modifies this`password
      ensures HookedPassword(newPassword, hash).None? ==> r == HookFailed && password == newPassword
      ensures HookedPassword(newPassword, hash).Some? ==> password == HookedPassword(newPassword, hash).value
      ensures HookedPassword(newPassword, hash).Some? && db.Fail? ==> r == DbFailed(db.reason)
      ensures HookedPassword(newPassword, hash).Some? && db.Pass? ==> r == Saved(password)
    {
      password := newPassword;
      var failed := BeforeSave(hash);
      if failed {
        return HookFailed;
      }
      if db.Fail? {
        return DbFailed(db.reason);
      }
      r := Saved(password);
    }

    /** UpdateLastLogin: set the in-memory time, then write only that
        column (UpdateColumn runs no hooks). */
    method UpdateLastLogin(now: int, db: Outcome) returns (r: Outcome)
      modifies this`lastLogin
      ensures lastLogin == Some(now) && r == db
    {
      lastLogin := Some(now);
      r := db;
    }
  }
}
