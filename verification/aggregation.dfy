/** The plant summary: a fold over the discovered inverters that sums power and
    production of the linked ones and raises the alarm flag for a linked one in alarm. */
module Aggregation {
  import opened Datatypes

  predicate IsLinked<S>(inv: Inverter<S>) {
    inv.linkStatus != 0
  }

  /** The inverters currently communicating with the DTU, in their original order. */
  function LinkedOnly<S>(invs: seq<Inverter<S>>): (r: seq<Inverter<S>>)
    ensures |r| <= |invs|
    ensures forall k :: 0 <= k < |r| ==> IsLinked(r[k])
    ensures forall k :: 0 <= k < |invs| && IsLinked(invs[k]) ==> invs[k] in r
  {
    if |invs| == 0 then []
    else if IsLinked(invs[0]) then [invs[0]] + LinkedOnly(invs[1..])
    else LinkedOnly(invs[1..])
  }

  function PowerSum<S>(invs: seq<Inverter<S>>): real {
    if |invs| == 0 then 0.0 else invs[0].pvPower + PowerSum(invs[1..])
  }

  function TodaySum<S>(invs: seq<Inverter<S>>): int {
    if |invs| == 0 then 0 else invs[0].todayProduction + TodaySum(invs[1..])
  }

  function TotalSum<S>(invs: seq<Inverter<S>>): int {
    if |invs| == 0 then 0 else invs[0].totalProduction + TotalSum(invs[1..])
  }

  /** Some linked inverter reports a non-zero alarm code. */
  predicate AnyLinkedAlarm<S>(invs: seq<Inverter<S>>) {
    exists k :: 0 <= k < |invs| && IsLinked(invs[k]) && invs[k].alarmCode != 0
  }

  /** One pass of the loop body: a linked inverter adds its power and production and
      sets the flag if it is in alarm; an unlinked one changes nothing. */
  function Visit<S>(data: Plant<S>, inv: Inverter<S>): Plant<S> {
    if IsLinked(inv) then
      data.(pvPower := data.pvPower + inv.pvPower,
            todayProduction := data.todayProduction + inv.todayProduction,
            totalProduction := data.totalProduction + inv.totalProduction,
            alarmFlag := if inv.alarmCode != 0 then true else data.alarmFlag)
    else data
  }

  /** The loop over `invs`, first to last, from the running summary `data`. */
  function Fold<S>(data: Plant<S>, invs: seq<Inverter<S>>): (r: Plant<S>)
    ensures r.dtu == data.dtu && r.inverters == data.inverters
    ensures r.pvPower == data.pvPower + PowerSum(LinkedOnly(invs))
    ensures r.todayProduction == data.todayProduction + TodaySum(LinkedOnly(invs))
    ensures r.totalProduction == data.totalProduction + TotalSum(LinkedOnly(invs))
    ensures r.alarmFlag <==> data.alarmFlag || AnyLinkedAlarm(invs)
    decreases |invs|
  {
    if |invs| == 0 then data
    else
      var rest := invs[1..];
      assert AnyLinkedAlarm(invs) <==> (IsLinked(invs[0]) && invs[0].alarmCode != 0) || AnyLinkedAlarm(rest) by {
        if AnyLinkedAlarm(rest) {
          var k :| 0 <= k < |rest| && IsLinked(rest[k]) && rest[k].alarmCode != 0;
          assert invs[k + 1] == rest[k];
        }
      }
      Fold(Visit(data, invs[0]), rest)
  }

  /** `plant_data`: the summary of `dtu` and the discovered inverters. The sums and the
      flag count linked inverters only; every inverter stays in the list, in order. */
  function PlantData<S>(dtu: S, invs: seq<Inverter<S>>): (p: Plant<S>)
    ensures p.dtu == dtu && p.inverters == invs
    ensures p.pvPower == PowerSum(LinkedOnly(invs))
    ensures p.todayProduction == TodaySum(LinkedOnly(invs))
    ensures p.totalProduction == TotalSum(LinkedOnly(invs))
    ensures p.alarmFlag <==> AnyLinkedAlarm(invs)
  {
    Fold(NewPlant(dtu, invs), invs)
  }

  /** With no inverters the summary keeps its defaults. */
  lemma PlantDataOfNoInverters<S>(dtu: S)
    ensures PlantData(dtu, []) == NewPlant(dtu, [])
  {
  }

  /** One inverter is kept iff it is linked; with `SumsOfConcat` this fixes the filter,
      order and repetitions included. */
  lemma LinkedOnlySingleton<S>(x: Inverter<S>)
    ensures LinkedOnly([x]) == if IsLinked(x) then [x] else []
  {
  }

  /** Filtering and summing distribute over concatenation. */
  lemma {:induction false} SumsOfConcat<S>(a: seq<Inverter<S>>, b: seq<Inverter<S>>)
    ensures LinkedOnly(a + b) == LinkedOnly(a) + LinkedOnly(b)
    ensures PowerSum(a + b) == PowerSum(a) + PowerSum(b)
    ensures TodaySum(a + b) == TodaySum(a) + TodaySum(b)
    ensures TotalSum(a + b) == TotalSum(a) + TotalSum(b)
  {
    if |a| > 0 {
      assert (a + b)[1..] == a[1..] + b;
      SumsOfConcat(a[1..], b);
    } else {
      assert a + b == b;
    }
  }

  /** An unlinked inverter, wherever it sits, changes no sum and not the flag; it only
      appears in the list. */
  lemma UnlinkedInverterIgnored<S>(dtu: S, a: seq<Inverter<S>>, u: Inverter<S>, b: seq<Inverter<S>>)
    requires !IsLinked(u)
    ensures var with := PlantData(dtu, a + [u] + b);
            var without := PlantData(dtu, a + b);
            && with.pvPower == without.pvPower
            && with.todayProduction == without.todayProduction
            && with.totalProduction == without.totalProduction
            && with.alarmFlag == without.alarmFlag
            && with.inverters == a + [u] + b
  {
    SumsOfConcat(a + [u], b);
    SumsOfConcat(a, [u]);
    SumsOfConcat(a, b);
    assert LinkedOnly([u]) == [] by {
      assert [u][1..] == [];
    }
    assert LinkedOnly(a + [u]) == LinkedOnly(a);
    UnlinkedAlarmIgnored(a, u, b);
  }

  /** An unlinked inverter never raises or hides the alarm flag. */
  lemma UnlinkedAlarmIgnored<S>(a: seq<Inverter<S>>, u: Inverter<S>, b: seq<Inverter<S>>)
    requires !IsLinked(u)
    ensures AnyLinkedAlarm(a + [u] + b) <==> AnyLinkedAlarm(a + b)
  {
    var full := a + [u] + b;
    if AnyLinkedAlarm(full) {
      var k :| 0 <= k < |full| && IsLinked(full[k]) && full[k].alarmCode != 0;
      if k < |a| {
        assert (a + b)[k] == full[k];
      } else {
        assert k > |a| && (a + b)[k - 1] == full[k];
      }
    }
    if AnyLinkedAlarm(a + b) {
      var k :| 0 <= k < |a + b| && IsLinked((a + b)[k]) && (a + b)[k].alarmCode != 0;
      if k < |a| {
        assert full[k] == (a + b)[k];
      } else {
        assert full[k + 1] == (a + b)[k];
      }
    }
  }

  /** Two linked inverters producing 751 Wh and 679 Wh today (74823 Wh and 54328 Wh in
      total, 10.2 W and 9.9 W now) give 1430 Wh, 129151 Wh and 20.1 W; the flag is up
      exactly when one of them has a non-zero alarm code. */
  lemma TwoInverterPlant()
    ensures var a := Inverter(12, "103332416355", 1, 35.0, 0.2, 238.1, 50.0, 10.2, 751, 74823, 4.3, 3, 0, 0, 1, [7, 0, 0, 0, 0, 0, 0]);
            var b := Inverter(12, "117763504101", 1, 34.8, 0.2, 237.9, 50.0, 9.9, 679, 54328, 6.0, 3, 0, 0, 1, [7, 0, 0, 0, 0, 0, 0]);
            var p := PlantData("11d361600831", [a, b]);
            && p.todayProduction == 1430
            && p.totalProduction == 129151
            && p.pvPower == 20.1
            && !p.alarmFlag
            && PlantData("11d361600831", [a.(alarmCode := 1), b]).alarmFlag
  {
    var a := Inverter(12, "103332416355", 1, 35.0, 0.2, 238.1, 50.0, 10.2, 751, 74823, 4.3, 3, 0, 0, 1, [7, 0, 0, 0, 0, 0, 0]);
    var b := Inverter(12, "117763504101", 1, 34.8, 0.2, 237.9, 50.0, 9.9, 679, 54328, 6.0, 3, 0, 0, 1, [7, 0, 0, 0, 0, 0, 0]);
    assert [a, b][1..] == [b];
    assert [a.(alarmCode := 1), b][1..] == [b];
  }
}
