/** The re-mapping of the module-to-env output `to_env`, a dict from column
    to a one-element list (one entry per environment) of per-agent dicts,
    into `extra_model_outputs`, a dict from agent to its per-column values.
    Only the first list entry is read, since the environment is never
    vectorized. */
module ToEnvTranspose {
  import opened Types

  /** `to_env`: column -> [ {agent -> value} ]. */
  type ToEnv<V> = map<Column, seq<map<AgentId, V>>>

  /** `extra_model_outputs`: agent -> {column -> value}. */
  type ExtraOutputs<V> = map<AgentId, map<Column, V>>

  /** The columns in `cols` all have a first entry. */
  predicate Readable<V>(toEnv: ToEnv<V>, cols: set<Column>) {
    forall c | c in cols :: c in toEnv && |toEnv[c]| > 0
  }

  /** The agents with a value in one of the columns in `cols`. */
  function AgentsIn<V>(toEnv: ToEnv<V>, cols: set<Column>): set<AgentId>
    requires Readable(toEnv, cols)
  {
    set c, a | c in cols && a in toEnv[c][0] :: a
  }

  /** Agent `a`'s values in the columns in `cols`. */
  function Entry<V>(toEnv: ToEnv<V>, cols: set<Column>, a: AgentId): map<Column, V>
    requires Readable(toEnv, cols)
  {
    map c | c in cols && a in toEnv[c][0] :: toEnv[c][0][a]
  }

  /** The transpose of the columns in `cols` only: every agent with a value
      in one of them gets exactly the columns it has a value in. */
  function Over<V>(toEnv: ToEnv<V>, cols: set<Column>): ExtraOutputs<V>
    requires Readable(toEnv, cols)
  {
    map a | a in AgentsIn(toEnv, cols) :: Entry(toEnv, cols, a)
  }

  /** The reference transpose of all columns. */
  function Transposed<V>(toEnv: ToEnv<V>): ExtraOutputs<V>
    requires Readable(toEnv, toEnv.Keys)
  {
    Over(toEnv, toEnv.Keys)
  }

  /** `extra_model_outputs[a][c] = v` on the default dict. */
  function Put<V>(out: ExtraOutputs<V>, a: AgentId, c: Column, v: V): ExtraOutputs<V> {
    out[a := (if a in out then out[a] else map[])[c := v]]
  }

  /** `out` after the agents in `done` of `row` were written under column
      `c`. */
  function With<V>(out: ExtraOutputs<V>, c: Column, row: map<AgentId, V>, done: set<AgentId>): ExtraOutputs<V>
    requires done <= row.Keys
  {
    map a | a in out.Keys + done :: if a in done then (if a in out then out[a] else map[])[c := row[a]] else out[a]
  }

  lemma WithNone<V>(out: ExtraOutputs<V>, c: Column, row: map<AgentId, V>)
    ensures With(out, c, row, {}) == out
  {
  }

  lemma WithStep<V>(out: ExtraOutputs<V>, c: Column, row: map<AgentId, V>, done: set<AgentId>, a: AgentId)
    requires done <= row.Keys && a in row && a !in done
    ensures With(out, c, row, done + {a}) == Put(With(out, c, row, done), a, c, row[a])
  {
  }

  /** Adding a column adds exactly its agents. */
  lemma AgentsInAdd<V>(toEnv: ToEnv<V>, cols: set<Column>, c: Column)
    requires Readable(toEnv, cols + {c})
    ensures AgentsIn(toEnv, cols + {c}) == AgentsIn(toEnv, cols) + toEnv[c][0].Keys
  {
    forall a | a in AgentsIn(toEnv, cols + {c}) ensures a in AgentsIn(toEnv, cols) + toEnv[c][0].Keys {
      var c' :| c' in cols + {c} && a in toEnv[c'][0];
      if c' != c { assert a in AgentsIn(toEnv, cols); }
    }
    forall a | a in AgentsIn(toEnv, cols) + toEnv[c][0].Keys ensures a in AgentsIn(toEnv, cols + {c}) {
      if a in toEnv[c][0] {
        assert c in cols + {c};
      } else {
        var c' :| c' in cols && a in toEnv[c'][0];
        assert c' in cols + {c};
      }
    }
  }

  /** Adding a new column adds that column's value to each of its agents'
      entries and leaves the other agents' entries alone. */
  lemma EntryAdd<V>(toEnv: ToEnv<V>, cols: set<Column>, c: Column, a: AgentId)
    requires Readable(toEnv, cols + {c}) && c !in cols
    ensures Entry(toEnv, cols + {c}, a) ==
              if a in toEnv[c][0] then Entry(toEnv, cols, a)[c := toEnv[c][0][a]] else Entry(toEnv, cols, a)
  {
  }

  /** An agent has an entry iff it has some value. */
  lemma EntryEmpty<V>(toEnv: ToEnv<V>, cols: set<Column>, a: AgentId)
    requires Readable(toEnv, cols) && a !in AgentsIn(toEnv, cols)
    ensures Entry(toEnv, cols, a) == map[]
  {
  }

  /** Writing a whole new column extends the transpose by that column. */
  lemma WithColumn<V>(toEnv: ToEnv<V>, cols: set<Column>, c: Column)
    requires Readable(toEnv, cols + {c}) && c !in cols
    ensures With(Over(toEnv, cols), c, toEnv[c][0], toEnv[c][0].Keys) == Over(toEnv, cols + {c})
  {
    var lhs := With(Over(toEnv, cols), c, toEnv[c][0], toEnv[c][0].Keys);
    var rhs := Over(toEnv, cols + {c});
    AgentsInAdd(toEnv, cols, c);
    assert lhs.Keys == rhs.Keys;
    forall a | a in lhs ensures lhs[a] == rhs[a] {
      EntryAdd(toEnv, cols, c, a);
      if a !in AgentsIn(toEnv, cols) {
        EntryEmpty(toEnv, cols, a);
      }
    }
  }

  /** The inner loop: every agent of `row` gets its value under column
      `c`. */
  method WriteColumn<V>(out: ExtraOutputs<V>, c: Column, row: map<AgentId, V>) returns (o: ExtraOutputs<V>)
    ensures o == With(out, c, row, row.Keys)
  {
    o := out;
    var agents := row.Keys;
    WithNone(out, c, row);
    while agents != {}
      invariant agents <= row.Keys
      invariant o == With(out, c, row, row.Keys - agents)
      decreases agents
    {
      var a :| a in agents;
      WithStep(out, c, row, row.Keys - agents, a);
      assert row.Keys - (agents - {a}) == (row.Keys - agents) + {a};
      o := Put(o, a, c, row[a]);
      agents := agents - {a};
    }
  }

  /** The two nested loops over columns and agents. Reading the first entry
      of an empty column fails; otherwise the result is the reference
      transpose. */
  method Transpose<V>(toEnv: ToEnv<V>) returns (r: Result<ExtraOutputs<V>>)
    ensures r.Err? <==> exists c | c in toEnv :: |toEnv[c]| == 0
    ensures r.Err? ==> r.error == EmptyColumn
    ensures r.Ok? ==> Readable(toEnv, toEnv.Keys) && r.value == Transposed(toEnv)
  {
    var out: ExtraOutputs<V> := map[];
    var cols := toEnv.Keys;
    ghost var done: set<Column> := {};
    while cols != {}
      invariant cols + done == toEnv.Keys && cols !! done
      invariant Readable(toEnv, done)
      invariant out == Over(toEnv, done)
      decreases cols
    {
      var c :| c in cols;
      if |toEnv[c]| == 0 {
        return Err(EmptyColumn);
      }
      out := WriteColumn(out, c, toEnv[c][0]);
      WithColumn(toEnv, done, c);
      cols := cols - {c};
      done := done + {c};
    }
    r := Ok(out);
  }

  // ---------------------------------------------------------------------

  /** An agent gets an entry iff it has a value in some column, the entry
      holds exactly the columns it has a value in, with those values, and
      no entry is empty. */
  lemma TransposedFacts<V>(toEnv: ToEnv<V>, a: AgentId, c: Column)
    requires Readable(toEnv, toEnv.Keys)
    ensures a in Transposed(toEnv) <==> exists c' | c' in toEnv :: a in toEnv[c'][0]
    ensures a in Transposed(toEnv) ==> |Transposed(toEnv)[a]| > 0
    ensures a in Transposed(toEnv) ==> (c in Transposed(toEnv)[a] <==> c in toEnv && a in toEnv[c][0])
    ensures a in Transposed(toEnv) && c in Transposed(toEnv)[a] ==> Transposed(toEnv)[a][c] == toEnv[c][0][a]
  {
    if a in Transposed(toEnv) {
      var c' :| c' in toEnv && a in toEnv[c'][0];
      assert c' in Transposed(toEnv)[a];
    }
  }

  /** The columns some agent has a value in. */
  function ColumnsOf<V>(out: ExtraOutputs<V>): set<Column> {
    set a, c | a in out && c in out[a] :: c
  }

  /** Column `c` of the output, as a per-agent dict. */
  function ColumnOf<V>(out: ExtraOutputs<V>, c: Column): map<AgentId, V> {
    map a | a in out && c in out[a] :: out[a][c]
  }

  /** The way back: one single-entry list per column. */
  function Untranspose<V>(out: ExtraOutputs<V>): ToEnv<V> {
    map c | c in ColumnsOf(out) :: [ColumnOf(out, c)]
  }

  lemma UntransposeReadable<V>(out: ExtraOutputs<V>)
    ensures Readable(Untranspose(out), Untranspose(out).Keys)
    ensures forall c | c in Untranspose(out) :: Untranspose(out)[c][0] == ColumnOf(out, c)
  {
  }

  /** Round trip, agent by agent. */
  lemma RoundTripAgent<V>(out: ExtraOutputs<V>, a: AgentId)
    requires forall a' | a' in out :: |out[a']| > 0
    ensures var t := Untranspose(out);
      Readable(t, t.Keys) && (a in AgentsIn(t, t.Keys) <==> a in out)
  {
    var t := Untranspose(out);
    UntransposeReadable(out);
    if a in out {
      var c :| c in out[a];
      assert c in ColumnsOf(out);
      assert a in ColumnOf(out, c);
      assert a in t[c][0];
    }
    if a in AgentsIn(t, t.Keys) {
      var c :| c in t.Keys && a in t[c][0];
      assert a in ColumnOf(out, c);
    }
  }

  /** Round trip, entry by entry. */
  lemma RoundTripEntry<V>(out: ExtraOutputs<V>, a: AgentId)
    requires a in out
    ensures var t := Untranspose(out);
      Readable(t, t.Keys) && Entry(t, t.Keys, a) == out[a]
  {
    var t := Untranspose(out);
    UntransposeReadable(out);
    var e := Entry(t, t.Keys, a);
    forall c ensures c in e <==> c in out[a] {
      if c in out[a] {
        assert c in ColumnsOf(out);
        assert a in ColumnOf(out, c);
      }
      if c in e {
        assert a in ColumnOf(out, c);
      }
    }
    forall c | c in e ensures e[c] == out[a][c] {
      assert t[c][0] == ColumnOf(out, c);
    }
  }

  lemma RoundTripKeys<V>(out: ExtraOutputs<V>)
    requires forall a | a in out :: |out[a]| > 0
    ensures Readable(Untranspose(out), Untranspose(out).Keys)
    ensures Transposed(Untranspose(out)).Keys == out.Keys
  {
    UntransposeReadable(out);
    forall a ensures a in Transposed(Untranspose(out)) <==> a in out {
      RoundTripAgent(out, a);
    }
  }

  /** Transposing undoes the way back for any output without empty entries,
      which is every output the transpose gives. */
  lemma TransposeRoundTrip<V>(out: ExtraOutputs<V>)
    requires forall a | a in out :: |out[a]| > 0
    ensures Readable(Untranspose(out), Untranspose(out).Keys)
    ensures Transposed(Untranspose(out)) == out
  {
    RoundTripKeys(out);
    var back := Transposed(Untranspose(out));
    forall a | a in out ensures back[a] == out[a] {
      RoundTripEntry(out, a);
    }
    MapsEqual(back, out);
  }

  lemma MapsEqual<K, W>(m: map<K, W>, m': map<K, W>)
    requires m.Keys == m'.Keys && forall k | k in m :: m[k] == m'[k]
    ensures m == m'
  {
  }

  /** Column `c` of the transpose is the column's first entry. */
  lemma ColumnOfTransposed<V>(toEnv: ToEnv<V>, c: Column)
    requires Readable(toEnv, toEnv.Keys) && c in toEnv
    ensures ColumnOf(Transposed(toEnv), c) == toEnv[c][0]
  {
    var out := Transposed(toEnv);
    var col := ColumnOf(out, c);
    forall a ensures a in col <==> a in toEnv[c][0] {
      TransposedFacts(toEnv, a, c);
    }
    forall a | a in col ensures col[a] == toEnv[c][0][a] {
      TransposedFacts(toEnv, a, c);
    }
  }

  /** The columns of the transpose are the columns that have values. */
  lemma ColumnsOfTransposed<V>(toEnv: ToEnv<V>, c: Column)
    requires Readable(toEnv, toEnv.Keys)
    ensures c in ColumnsOf(Transposed(toEnv)) <==> c in toEnv && |toEnv[c][0]| > 0
  {
    var out := Transposed(toEnv);
    if c in toEnv && |toEnv[c][0]| > 0 {
      var a :| a in toEnv[c][0];
      TransposedFacts(toEnv, a, c);
      assert c in out[a];
    }
    if c in ColumnsOf(out) {
      var a :| a in out && c in out[a];
      TransposedFacts(toEnv, a, c);
      assert a in toEnv[c][0];
    }
  }

  /** The way back recovers the first entry of every column that has
      values; the other entries and the columns without values are lost. */
  lemma UntransposeRecovers<V>(toEnv: ToEnv<V>)
    requires Readable(toEnv, toEnv.Keys)
    ensures Untranspose(Transposed(toEnv)) == map c | c in toEnv && |toEnv[c][0]| > 0 :: [toEnv[c][0]]
  {
    var lhs := Untranspose(Transposed(toEnv));
    var rhs := map c | c in toEnv && |toEnv[c][0]| > 0 :: [toEnv[c][0]];
    forall c ensures c in lhs <==> c in rhs {
      ColumnsOfTransposed(toEnv, c);
    }
    forall c | c in lhs ensures lhs[c] == rhs[c] {
      ColumnsOfTransposed(toEnv, c);
      ColumnOfTransposed(toEnv, c);
    }
    MapsEqual(lhs, rhs);
  }
}
