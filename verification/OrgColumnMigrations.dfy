/**
 Migrations 26 and 27: adding org_id to three user tables from the report table,
 then dropping the rows left at the default.
 */
module OrgColumnMigrations {
  import opened Schema
  import Text

  /** A row of a user table; `payload` stands for its other columns. */
  datatype OldRow = OldRow(payload: string)
  datatype NewRow = NewRow(payload: string, org: string)

  datatype UserTable = ClusterRuleToggle | ClusterRuleUserFeedback | ClusterUserRuleDisableFeedback

  type OldTables = map<UserTable, map<UserKey, OldRow>>
  type NewTables = map<UserTable, map<UserKey, NewRow>>

  const USER_TABLES: seq<UserTable> := [ClusterRuleToggle, ClusterRuleUserFeedback, ClusterUserRuleDisableFeedback]

  const DEFAULT_ORG := "0"

  /** ALTER TABLE ... ADD COLUMN org_id VARCHAR NOT NULL DEFAULT '0'. */
  function AddOrgColumn(t: map<UserKey, OldRow>): map<UserKey, NewRow>
  {
    map k | k in t :: NewRow(t[k].payload, DEFAULT_ORG)
  }

  /** UPDATE t SET org_id = report.org_id FROM report WHERE report.cluster = t.cluster_id. */
  function PopulateOrg(t: map<UserKey, NewRow>, report: map<Cluster, ReportRow>): map<UserKey, NewRow>
  {
    map k | k in t :: if k.cluster in report then t[k].(org := Text.Decimal(report[k.cluster].org)) else t[k]
  }

  /** DELETE FROM t WHERE org_id = '0'. */
  function DropDefaultOrg(t: map<UserKey, NewRow>): map<UserKey, NewRow>
  {
    map k | k in t && t[k].org != DEFAULT_ORG :: t[k]
  }

  function Migrated26(t: map<UserKey, OldRow>, report: map<Cluster, ReportRow>): map<UserKey, NewRow>
  {
    PopulateOrg(AddOrgColumn(t), report)
  }

  /** StepUp of migration 26, on Postgres; `fails` is the table whose statement fails, if any. */
  method Mig26StepUp(tables: OldTables, report: map<Cluster, ReportRow>, fails: set<UserTable>)
    returns (ok: bool, tx: NewTables)
    requires tables.Keys == (set n | n in USER_TABLES)
    ensures ok <==> forall n :: n in USER_TABLES ==> n !in fails
    ensures ok ==> tx.Keys == tables.Keys && forall n :: n in tables ==> tx[n] == Migrated26(tables[n], report)
  {
    tx := map[];
    for i := 0 to |USER_TABLES|
      invariant forall n :: n in USER_TABLES[..i] ==> n !in fails
      invariant forall n :: n in tx <==> n in USER_TABLES[..i]
      invariant forall n :: n in tx ==> tx[n] == Migrated26(tables[n], report)
    {
      var n := USER_TABLES[i];
      assert n in USER_TABLES;
      if n in fails {
        return false, tx;
      }
      assert USER_TABLES[..i + 1] == USER_TABLES[..i] + [n];
      var t := AddOrgColumn(tables[n]);
      t := PopulateOrg(t, report);
      tx := tx[n := t];
    }
    ok := true;
  }

  /** StepUp of migration 27, on Postgres. */
  method Mig27StepUp(tables: NewTables, fails: set<UserTable>) returns (ok: bool, tx: NewTables)
    requires tables.Keys == (set n | n in USER_TABLES)
    ensures ok <==> forall n :: n in USER_TABLES ==> n !in fails
    ensures ok ==> tx.Keys == tables.Keys && forall n :: n in tables ==> tx[n] == DropDefaultOrg(tables[n])
  {
    tx := tables;
    for i := 0 to |USER_TABLES|
      invariant forall n :: n in USER_TABLES[..i] ==> n !in fails
      invariant tx.Keys == tables.Keys
      invariant forall n :: n in tables ==> tx[n] == if n in USER_TABLES[..i] then DropDefaultOrg(tables[n]) else tables[n]
    {
      var n := USER_TABLES[i];
      assert n in USER_TABLES;
      if n in fails {
        return false, tx;
      }
      assert n !in USER_TABLES[..i];
      assert USER_TABLES[..i + 1] == USER_TABLES[..i] + [n];
      tx := tx[n := DropDefaultOrg(tx[n])];
    }
    ok := true;
  }

  /** Both migrations together are a join with the report table: in each of the three tables a row survives exactly
      when its cluster has a report row under a non-zero organization, which becomes its org_id; nothing else
      changes or appears. */
  method MigrateOrgColumns(tables: OldTables, report: map<Cluster, ReportRow>, fails26: set<UserTable>, fails27: set<UserTable>)
    returns (ok: bool, tx: NewTables)
    requires tables.Keys == (set n | n in USER_TABLES)
    ensures ok <==> forall n :: n in USER_TABLES ==> n !in fails26 && n !in fails27
    ensures ok ==> tx.Keys == tables.Keys
    ensures ok ==> forall n, k :: n in tables ==>
              (k in tx[n] <==> k in tables[n] && k.cluster in report && report[k.cluster].org != 0)
    ensures ok ==> forall n, k :: n in tables && k in tx[n] ==>
              && k in tables[n] && k.cluster in report
              && tx[n][k] == NewRow(tables[n][k].payload, Text.Decimal(report[k.cluster].org))
    ensures ok ==> forall n, k :: n in tables && k in tx[n] ==>
              k.cluster in report && Text.ValueOf(tx[n][k].org) == report[k.cluster].org != 0
              && tx[n][k].payload == tables[n][k].payload
  {
    ok, tx := Mig26StepUp(tables, report, fails26);
    if !ok {
      return;
    }
    ghost var migrated := tx;
    ok, tx := Mig27StepUp(tx, fails27);
    if ok {
      forall n | n in tables ensures tx[n] == DropDefaultOrg(Migrated26(tables[n], report)) {
        assert migrated[n] == Migrated26(tables[n], report);
      }
      forall n, k | n in tables && k in tx[n] ensures Text.ValueOf(tx[n][k].org) == report[k.cluster].org {
        Text.DecimalValue(report[k.cluster].org);
      }
    }
  }
}
