/** Template seeding at start-up (`init_templates` in app.py). */
module App {
  import opened Models
  import opened Database

  /** A template to seed: its title and its script, which is both the macro's
      description and the content of its first version. */
  datatype TemplateSeed = TemplateSeed(title: string, description: string)

  /** Script of the range-summing template. */
  const SumScript: string := @"
Sub データ集計()
    ' 選択範囲の合計を計算
    Dim rng As Range
    Set rng = Selection

    ' 合計を計算
    Dim total As Double
    total = WorksheetFunction.Sum(rng)

    ' 結果を表示
    MsgBox ""選択範囲の合計: "" & total
End Sub
"

  /** Script of the sheet-tidying template. */
  const TidyScript: string := @"
Sub シート整理()
    ' すべてのシートをループ
    Dim ws As Worksheet
    For Each ws In ThisWorkbook.Worksheets
        ' シートの最終行と列を取得
        Dim lastRow As Long, lastCol As Long
        lastRow = ws.Cells(ws.Rows.Count, 1).End(xlUp).Row
        lastCol = ws.Cells(1, ws.Columns.Count).End(xlToLeft).Column

        ' オートフィット
        ws.Range(ws.Cells(1, 1), ws.Cells(lastRow, lastCol)).Columns.AutoFit
    Next ws

    MsgBox ""すべてのシートを整理しました""
End Sub
"

  /** The two templates, in seeding order. */
  const Templates: seq<TemplateSeed> := [
    TemplateSeed("データ集計マクロ", SumScript),
    TemplateSeed("シート整理マクロ", TidyScript)
  ]

  /** `m` is the macro seeded from `t` at time `now`: a public TEMPLATE macro
      whose only version is number 1 and holds the template's script. */
  ghost predicate SeededFrom(m: Macro, t: TemplateSeed, now: Timestamp)
    reads m
  {
    && m.title == t.title && m.description == t.description
    && m.category == MacroCategory.Template.Value() && m.isPublic && m.createdAt == now
    && |m.versions| == 1
    && m.versions[0].macroId == m.id && m.versions[0].versionNumber == 1
    && m.versions[0].content == t.description && m.versions[0].createdAt == now
  }

  /** `init_templates`: when no TEMPLATE macro is stored, stores one macro per
      template, each with its first version; otherwise leaves the store as it is.
      Either way a TEMPLATE macro exists afterwards, so a second call changes nothing. */
  method InitTemplates(table: MacroTable, now: Timestamp)
    requires table.Valid()
    modifies table
    ensures table.Valid()
    ensures table.TemplatesExist()
    ensures old(table.TemplatesExist()) ==> unchanged(table)
    ensures !old(table.TemplatesExist()) ==>
              && |table.macros| == |old(table.macros)| + |Templates|
              && table.macros[..|old(table.macros)|] == old(table.macros)
              && table.nextMacroId == old(table.nextMacroId) + |Templates|
              && table.nextVersionId == old(table.nextVersionId) + |Templates|
              && forall j :: |old(table.macros)| <= j < |table.macros| ==>
                   && fresh(table.macros[j])
                   && SeededFrom(table.macros[j], Templates[j - |old(table.macros)|], now)
    ensures forall m :: m in old(table.macros) ==> unchanged(m)
  {
    if !table.TemplatesExist() {
      var n := |table.macros|;
      for i := 0 to |Templates|
        invariant table.Valid()
        invariant |table.macros| == n + i && table.macros[..n] == old(table.macros)
        invariant table.nextMacroId == old(table.nextMacroId) + i
        invariant table.nextVersionId == old(table.nextVersionId) + i
        invariant forall j :: n <= j < n + i ==> fresh(table.macros[j])
        invariant forall j :: n <= j < n + i ==> SeededFrom(table.macros[j], Templates[j - n], now)
      {
        var t := Templates[i];
        ghost var prev := table.macros;
        var m := table.Insert(t.title, t.description, MacroCategory.Template.Value(), true, now);
        var v := table.SaveVersion(m, t.description, now);
        assert table.macros == prev + [m];
        forall j | n <= j <= n + i
          ensures fresh(table.macros[j])
          ensures SeededFrom(table.macros[j], Templates[j - n], now)
        {
          if j < n + i {
            assert table.macros[j] == prev[j] != m;
          }
        }
      }
      assert |Templates| == 2;
      assert SeededFrom(table.macros[n], Templates[0], now);
    }
  }
}
