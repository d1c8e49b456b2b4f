/**
 * The shape of conf/conf.yml once it has been unmarshalled: a list of named
 * credential profiles ("modules").  The Go structs hold only data, so they
 * become plain datatypes.
 */
module Configuration {

  /** One `module` entry of the configuration file: a name and a credential pair. */
  datatype Clickmodule = Clickmodule(name: string, user: string, password: string)

  /** The whole configuration: the module entries in document order. */
  datatype Config = Config(modules: seq<Clickmodule>)

  /** The credential pair a lookup hands to the exporter. */
  datatype Credentials = Credentials(user: string, password: string)

  function CredentialsOf(m: Clickmodule): (c: Credentials)
    ensures c.user == m.user && c.password == m.password
  {
    Credentials(m.user, m.password)
  }

  /** Some entry of `c` carries exactly the name `name` (case-sensitive). */
  predicate Declares(c: Config, name: string)
  {
    exists i :: 0 <= i < |c.modules| && c.modules[i].name == name
  }

  /**
   * Nothing in the type makes names unique: two entries may share a name and
   * still carry different credentials, so which one a lookup picks is observable.
   */
  lemma DuplicateNamesRepresentable()
    ensures exists c: Config, i, j :: 0 <= i < j < |c.modules|
              && c.modules[i].name == c.modules[j].name
              && CredentialsOf(c.modules[i]) != CredentialsOf(c.modules[j])
  {
    var c := Config([Clickmodule("dup", "alice", "a"), Clickmodule("dup", "bob", "b")]);
    assert c.modules[0].name == c.modules[1].name;
    assert CredentialsOf(c.modules[0]) != CredentialsOf(c.modules[1]);
  }

  /**
   * Nothing in the type makes a field non-empty: an entry may have an empty
   * name, user or password.
   */
  lemma EmptyFieldsRepresentable()
    ensures exists c: Config, i :: 0 <= i < |c.modules|
              && c.modules[i].name == "" && c.modules[i].user == "" && c.modules[i].password == ""
  {
    var c := Config([Clickmodule("", "", "")]);
    assert c.modules[0].name == "";
  }
}
