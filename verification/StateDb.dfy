/** The document rows of the state database; each method is one transaction. */
module StateDb {
  import opened Stores

  class StateStore {
    var rows: Rows

    constructor ()
      ensures rows == map[]
    {
      rows := map[];
    }

    method GetDocument(job: string, source: string) returns (row: Option<Row>)
      ensures row == Lookup(rows, job, source)
    {
      row := if RowKey(job, source) in rows then Some(rows[RowKey(job, source)]) else None;
    }

    /** Inserts or replaces, keyed by job and source. */
    method UpsertDocument(job: string, source: string, row: Row)
      modifies this
      ensures rows == old(rows)[RowKey(job, source) := row]
    {
      rows := rows[RowKey(job, source) := row];
    }

    method DeleteDocument(job: string, source: string)
      modifies this
      ensures rows == old(rows) - {RowKey(job, source)}
    {
      rows := rows - {RowKey(job, source)};
    }

    method ListSources(job: string) returns (sources: set<string>)
      ensures sources == Tracked(rows, job)
    {
      sources := set k | k in rows && k.job == job :: k.source;
    }

    method DeleteDocumentsForJob(job: string)
      modifies this
      ensures rows == ForgetJob(old(rows), job)
    {
      rows := map k | k in rows && k.job != job :: rows[k];
    }

    method DeleteDocumentsForCollection(coll: string)
      modifies this
      ensures rows == ForgetCollection(old(rows), coll)
    {
      rows := map k | k in rows && rows[k].collection != coll :: rows[k];
    }
  }
}
