/** Capability records and their admission (src/rif_runtime/capabilities/registry.py). */
module CapabilityRegistries {
  import opened Wrappers

  datatype CapabilityStatus =
    Discovered | Identified | Inspected | Scanned | Evaluated | Admitted | Available | Revoked

  datatype CapabilityEvaluation = CapabilityEvaluation(evaluator: string, suite: string, passed: bool)

  datatype CapabilityRecord = CapabilityRecord(
    id: string,
    integrityVerified: bool,
    evaluations: seq<CapabilityEvaluation>,
    status: CapabilityStatus)

  datatype RegistryError =
    | AlreadyRegistered | IdMismatch | NoRecord | NoExecutable
    | IntegrityNotVerified | NoPassingEvaluation | LifecycleForbids

  /** Executable capabilities by name, and governance records by name. */
  datatype Registry = Registry(executables: set<string>, records: map<string, CapabilityRecord>)

  const EMPTY_REGISTRY := Registry({}, map[])

  predicate AnyPassed(evaluations: seq<CapabilityEvaluation>) {
    exists i :: 0 <= i < |evaluations| && evaluations[i].passed
  }

  /** What admission demands of a record at the moment it is asked. */
  predicate Admissible(record: CapabilityRecord) {
    record.integrityVerified && AnyPassed(record.evaluations) && record.status in {Evaluated, Admitted, Available}
  }

  function AdmissionError(r: Registry, name: string): (e: Option<RegistryError>)
    ensures e == None <==> name in r.records && Admissible(r.records[name])
  {
    if name !in r.records then Some(NoRecord) else
    var record := r.records[name];
    if !record.integrityVerified then Some(IntegrityNotVerified)
    else if !AnyPassed(record.evaluations) then Some(NoPassingEvaluation)
    else if record.status !in {Evaluated, Admitted, Available} then Some(LifecycleForbids)
    else None
  }

  function AfterAdmit(r: Registry, name: string): Registry {
    if AdmissionError(r, name).Some? then r
    else r.(records := r.records[name := r.records[name].(status := Admitted)])
  }

  function AfterRegister(r: Registry, name: string, record: Option<CapabilityRecord>): Registry {
    if name in r.executables || (record.Some? && record.value.id != name) then r
    else Registry(r.executables + {name}, if record.Some? then r.records[name := record.value] else r.records)
  }

  function AfterEvaluation(r: Registry, name: string, evaluation: CapabilityEvaluation): Registry {
    if name !in r.records then r else
    var record := r.records[name];
    r.(records := r.records[name := record.(evaluations := record.evaluations + [evaluation],
                                             status := if evaluation.passed then Evaluated else record.status)])
  }

  class CapabilityRegistry {
    var executables: set<string>
    var records: map<string, CapabilityRecord>

    function Value(): Registry
      reads this
    {
      Registry(executables, records)
    }

    constructor ()
      ensures Value() == EMPTY_REGISTRY
    {
      executables, records := {}, map[];
    }

    method Register(name: string, record: Option<CapabilityRecord>) returns (error: Option<RegistryError>)
      modifies this
      ensures Value() == AfterRegister(old(Value()), name, record)
      ensures error == if name in old(executables) then Some(AlreadyRegistered)
                       else if record.Some? && record.value.id != name then Some(IdMismatch) else None
    {
      if name in executables { return Some(AlreadyRegistered); }
      if record.Some? && record.value.id != name { return Some(IdMismatch); }
      executables := executables + {name};
      if record.Some? { records := records[name := record.value]; }
      return None;
    }

    method Admit(name: string) returns (r: Result<CapabilityRecord, RegistryError>)
      modifies this
      ensures Value() == AfterAdmit(old(Value()), name)
      ensures match AdmissionError(old(Value()), name)
              case Some(e) => r == Err(e)
              case None => r == Ok(records[name]) && records[name].status == Admitted
    {
      if name !in records { return Err(NoRecord); }
      var record := records[name];
      if !record.integrityVerified { return Err(IntegrityNotVerified); }
      if !AnyPassed(record.evaluations) { return Err(NoPassingEvaluation); }
      if record.status !in {Evaluated, Admitted, Available} { return Err(LifecycleForbids); }
      records := records[name := record.(status := Admitted)];
      return Ok(records[name]);
    }

    method AddEvaluation(name: string, evaluation: CapabilityEvaluation) returns (error: Option<RegistryError>)
      modifies this
      ensures Value() == AfterEvaluation(old(Value()), name, evaluation)
      ensures error == if name in old(records) then None else Some(NoRecord)
    {
      if name !in records { return Some(NoRecord); }
      var record := records[name].(evaluations := records[name].evaluations + [evaluation]);
      if evaluation.passed { record := record.(status := Evaluated); }
      records := records[name := record];
      return None;
    }
  }

  /**
   Admission settles a record: once admitted it stays admissible under further admissions and under
   any evaluation, passing or not, added to any capability.
   */
  lemma AdmittedStaysAdmissible(r: Registry, name: string, other: string, evaluation: CapabilityEvaluation)
    requires AdmissionError(r, name) == None
    ensures AdmissionError(AfterAdmit(r, name), name) == None
    ensures AdmissionError(AfterEvaluation(r, other, evaluation), name) == None
    ensures AfterAdmit(AfterAdmit(r, name), name) == AfterAdmit(r, name)
  {
    var record := r.records[name];
    var i :| 0 <= i < |record.evaluations| && record.evaluations[i].passed;
    var admitted := AfterAdmit(r, name).records[name];
    assert admitted.evaluations[i].passed;
    var later := AfterEvaluation(r, other, evaluation).records[name];
    assert later.evaluations[i].passed;
  }

  /** A verified capability, newly registered, can be admitted after its first passing evaluation and not before. */
  lemma RegisteredCapabilityCanBeAdmitted(r: Registry, name: string, record: CapabilityRecord,
                                          evaluation: CapabilityEvaluation)
    requires name !in r.executables && record.id == name && record.evaluations == []
    ensures var registered := AfterRegister(r, name, Some(record));
            var evaluated := AfterEvaluation(registered, name, evaluation);
            && name in registered.executables && name in registered.records && registered.records[name] == record
            && AdmissionError(registered, name).Some?
            && (AdmissionError(evaluated, name) == None <==> record.integrityVerified && evaluation.passed)
            && (AdmissionError(evaluated, name) == None ==>
                  AfterAdmit(evaluated, name).records[name].status == Admitted)
  {
    var evaluated := AfterEvaluation(AfterRegister(r, name, Some(record)), name, evaluation);
    assert evaluated.records[name].evaluations == [evaluation];
    assert [evaluation][0] == evaluation;
  }

  /** What admission never accepts, and the first reason it gives. */
  lemma UnfitIsRefused(r: Registry, name: string)
    ensures name !in r.records ==> AdmissionError(r, name) == Some(NoRecord)
    ensures name in r.records ==>
      var record := r.records[name];
      && (!record.integrityVerified ==> AdmissionError(r, name) == Some(IntegrityNotVerified))
      && (record.integrityVerified && (forall i :: 0 <= i < |record.evaluations| ==> !record.evaluations[i].passed) ==>
            AdmissionError(r, name) == Some(NoPassingEvaluation))
      && (record.status in {Discovered, Identified, Inspected, Scanned, Revoked} ==> AdmissionError(r, name).Some?)
  {
  }

  /** An evaluation adds itself and leaves all else of the record alone, except that a passing one sets its status. */
  lemma EvaluationTakes(r: Registry, name: string, evaluation: CapabilityEvaluation)
    requires name in r.records
    ensures var before, after := r.records[name], AfterEvaluation(r, name, evaluation).records[name];
            && after.evaluations == before.evaluations + [evaluation]
            && after.status == (if evaluation.passed then Evaluated else before.status)
            && after.id == before.id && after.integrityVerified == before.integrityVerified
    ensures forall other :: other != name && other in r.records ==>
              AfterEvaluation(r, name, evaluation).records[other] == r.records[other]
  {
  }
}
