/** InjectiveConnectionMapping of src/protocols/plain.hpp. */
module Connections {

  /** The two maps */
  datatype Maps<!C(==), !S(==)> = Maps(client2server: map<C, S>, server2client: map<S, C>)

  /** The maps are inverse to each other. */
  ghost predicate Inverse<C, S>(m: Maps<C, S>) {
    && (forall c :: c in m.client2server ==>
          m.client2server[c] in m.server2client && m.server2client[m.client2server[c]] == c)
    && (forall s :: s in m.server2client ==>
          m.server2client[s] in m.client2server && m.client2server[m.server2client[s]] == s)
  }

  function Added<C, S>(m: Maps<C, S>, c: C, s: S): Maps<C, S> {
    Maps(m.client2server[c := s], m.server2client[s := c])
  }

  function Without<C, S>(m: Maps<C, S>, c: C, s: S): Maps<C, S> {
    Maps(m.client2server - {c}, m.server2client - {s})
  }

  /** Adding keeps the maps inverse to each other exactly when neither the client nor the server is
      connected to another one. */
  lemma {:induction false} AddedInverse<C, S>(m: Maps<C, S>, c: C, s: S)
    requires Inverse(m)
    ensures Inverse(Added(m, c, s)) <==>
      (c in m.client2server ==> m.client2server[c] == s) && (s in m.server2client ==> m.server2client[s] == c)
  {
    var n := Added(m, c, s);
    if c in m.client2server && m.client2server[c] != s {
      assert n.server2client[m.client2server[c]] == c;
    }
    if s in m.server2client && m.server2client[s] != c {
      assert n.client2server[m.server2client[s]] == s;
    }
  }

  /** Deleting a client and a server keeps them so under the same condition. */
  lemma {:induction false} WithoutInverse<C, S>(m: Maps<C, S>, c: C, s: S)
    requires Inverse(m)
    ensures Inverse(Without(m, c, s)) <==>
      (c in m.client2server ==> m.client2server[c] == s) && (s in m.server2client ==> m.server2client[s] == c)
  {
    var n := Without(m, c, s);
    if c in m.client2server && m.client2server[c] != s {
      assert m.client2server[c] in n.server2client && n.server2client[m.client2server[c]] == c;
    }
    if s in m.server2client && m.server2client[s] != c {
      assert m.server2client[s] in n.client2server && n.client2server[m.server2client[s]] == s;
    }
  }

  /** What operator[] finds: a key that is missing is put in with the default value. */
  function ServerOf<C, S>(m: Maps<C, S>, c: C, default: S): S {
    if c in m.client2server then m.client2server[c] else default
  }

  function ClientOf<C, S>(m: Maps<C, S>, s: S, default: C): C {
    if s in m.server2client then m.server2client[s] else default
  }

  class Mapping<!C(==), !S(==)> {
    var client2server: map<C, S>
    var server2client: map<S, C>
    const noClient: C
    const noServer: S

    function Value(): Maps<C, S>
      reads this
    {
      Maps(client2server, server2client)
    }

    /** The arguments are the default values of the two types. */
    constructor (noClient: C, noServer: S)
      ensures Value() == Maps(map[], map[]) && this.noClient == noClient && this.noServer == noServer
    {
      this.noClient, this.noServer := noClient, noServer;
      client2server, server2client := map[], map[];
    }

    method Add(c: C, s: S)
      modifies this
      ensures Value() == Added(old(Value()), c, s)
      ensures Inverse(old(Value())) && c !in old(client2server) && s !in old(server2client) ==> Inverse(Value())
    {
      if Inverse(Value()) {
        AddedInverse(Value(), c, s);
      }
      client2server := client2server[c := s];
      server2client := server2client[s := c];
    }

    /** del of a client.  One that is not there takes the default server out of the other map. */
    method DelClient(c: C)
      modifies this
      ensures Value() == Without(old(Value()), c, ServerOf(old(Value()), c, noServer))
      ensures Inverse(old(Value())) ==>
        (Inverse(Value()) <==> c in old(client2server) || noServer !in old(server2client))
    {
      ghost var before := Value();
      if c !in client2server {
        client2server := client2server[c := noServer];
      }
      var s := client2server[c];
      server2client := server2client - {s};
      client2server := client2server - {c};
      assert client2server == before.client2server - {c};
      if Inverse(before) {
        WithoutInverse(before, c, s);
      }
    }

    /** del of a server.  One that is not there takes the default client out of the other map. */
    method DelServer(s: S)
      modifies this
      ensures Value() == Without(old(Value()), ClientOf(old(Value()), s, noClient), s)
      ensures Inverse(old(Value())) ==>
        (Inverse(Value()) <==> s in old(server2client) || noClient !in old(client2server))
    {
      ghost var before := Value();
      if s !in server2client {
        server2client := server2client[s := noClient];
      }
      var c := server2client[s];
      client2server := client2server - {c};
      server2client := server2client - {s};
      assert server2client == before.server2client - {s};
      if Inverse(before) {
        WithoutInverse(before, c, s);
      }
    }
  }
}
