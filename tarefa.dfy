/**
 * The Tarefa entity: its status enumeration, its bean-validation constraints
 * and its JPA lifecycle hooks, which stamp the creation and update times in
 * place. Times are readings of an abstract clock (a nat) handed in by the
 * caller instead of LocalDateTime.now().
 */
module Entity {
  import opened Common

  /** Tarefa.StatusTarefa. */
  datatype StatusTarefa = Pendente | Concluida | Cancelada

  /** Enum.name(). */
  function Name(s: StatusTarefa): string
  {
    match s
    case Pendente => "PENDENTE"
    case Concluida => "CONCLUIDA"
    case Cancelada => "CANCELADA"
  }

  /** Distinct constants have distinct names. */
  lemma NameInjective(a: StatusTarefa, b: StatusTarefa)
    requires Name(a) == Name(b)
    ensures a == b
  {
    assert Name(a)[1] == Name(b)[1];
  }

  /** Enum.valueOf: an exact, case-sensitive match of a constant's name; None stands for IllegalArgumentException. */
  function ValueOf(name: string): (r: Option<StatusTarefa>)
    ensures r.Some? ==> Name(r.value) == name
    ensures r.None? ==> forall s :: Name(s) != name
  {
    if name == "PENDENTE" then Some(Pendente)
    else if name == "CONCLUIDA" then Some(Concluida)
    else if name == "CANCELADA" then Some(Cancelada)
    else None
  }

  /** CONCLUIDA and CANCELADA are the states that the transition endpoints never leave. */
  predicate IsTerminal(s: StatusTarefa)
  {
    s == Concluida || s == Cancelada
  }

  /** The state of a Tarefa object; every field may be null, as in Java. */
  datatype TarefaValue = TarefaValue(
    id: Option<int>,
    titulo: Option<string>,
    descricao: Option<string>,
    status: Option<StatusTarefa>,
    dataCriacao: Option<nat>,
    dataAtualizacao: Option<nat>)

  const TITLE_MIN := 3
  const TITLE_MAX := 100
  const DESCRIPTION_MAX := 1000

  /** One failed constraint: the property path and the annotation's message. */
  datatype Violation = Violation(field: string, message: string)

  /**
   * The entity's constraints: a non-blank title of 3 to 100 characters, a
   * description that is null or at most 1000 characters, a non-null status.
   */
  predicate EntityConstraints(v: TarefaValue)
  {
    && v.titulo.Some? && !IsBlank(Java, v.titulo.value)
    && TITLE_MIN <= |v.titulo.value| <= TITLE_MAX
    && (v.descricao.Some? ==> |v.descricao.value| <= DESCRIPTION_MAX)
    && v.status.Some?
  }

  function TitleViolations(titulo: Option<string>): (r: seq<Violation>)
    ensures r == [] <==> titulo.Some? && !IsBlank(Java, titulo.value) && TITLE_MIN <= |titulo.value| <= TITLE_MAX
    ensures forall x :: x in r ==> x.field == "titulo"
  {
    (if titulo.None? || IsBlank(Java, titulo.value)
     then [Violation("titulo", "Title is required")] else [])
    + (if titulo.Some? && !(TITLE_MIN <= |titulo.value| <= TITLE_MAX)
       then [Violation("titulo", "Title must be between 3 and 100 characters")] else [])
  }

  function DescriptionViolations(descricao: Option<string>): (r: seq<Violation>)
    ensures r == [] <==> descricao.Some? ==> |descricao.value| <= DESCRIPTION_MAX
    ensures forall x :: x in r ==> x.field == "descricao"
  {
    if descricao.Some? && |descricao.value| > DESCRIPTION_MAX
    then [Violation("descricao", "Description cannot exceed 1000 characters")] else []
  }

  function StatusViolations(status: Option<StatusTarefa>): (r: seq<Violation>)
    ensures r == [] <==> status.Some?
    ensures forall x :: x in r ==> x.field == "status"
  {
    if status.None? then [Violation("status", "Status is required")] else []
  }

  /**
   * Bean validation of the entity: one violation per failed annotation. The
   * model lists them in declaration order; the validator returns a set whose
   * iteration order is unspecified. @NotBlank fails on null; @Size accepts null.
   */
  function EntityViolations(v: TarefaValue): (r: seq<Violation>)
    ensures r == [] <==> EntityConstraints(v)
    ensures forall x :: x in r ==> x.field in {"titulo", "descricao", "status"}
  {
    TitleViolations(v.titulo) + DescriptionViolations(v.descricao) + StatusViolations(v.status)
  }

  /** The state after @PrePersist at time now. */
  function Created(v: TarefaValue, now: nat): TarefaValue
  {
    v.(dataCriacao := Some(now), dataAtualizacao := Some(now))
  }

  /** The state after @PreUpdate at time now. */
  function Touched(v: TarefaValue, now: nat): TarefaValue
  {
    v.(dataAtualizacao := Some(now))
  }

  /** The state after creation at time created followed by one update at each time in updates. */
  function Stamped(v: TarefaValue, created: nat, updates: seq<nat>): TarefaValue
    decreases |updates|
  {
    if updates == [] then Created(v, created)
    else Touched(Stamped(v, created, updates[..|updates| - 1]), updates[|updates| - 1])
  }

  predicate NonDecreasing(times: seq<nat>)
  {
    forall i, j :: 0 <= i < j < |times| ==> times[i] <= times[j]
  }

  /**
   * Under a clock that never goes back, the creation time survives every
   * update, the update time is the latest reading, and creation never
   * follows the last update.
   */
  lemma {:induction false} StampedTimesOrdered(v: TarefaValue, created: nat, updates: seq<nat>)
    requires NonDecreasing([created] + updates)
    ensures Stamped(v, created, updates).dataCriacao == Some(created)
    ensures Stamped(v, created, updates).dataAtualizacao
            == Some(if updates == [] then created else updates[|updates| - 1])
    ensures created <= Stamped(v, created, updates).dataAtualizacao.value
    ensures Stamped(v, created, updates).(dataCriacao := v.dataCriacao, dataAtualizacao := v.dataAtualizacao) == v
    decreases |updates|
  {
    if updates != [] {
      var init := updates[..|updates| - 1];
      assert [created] + init == ([created] + updates)[..|updates|];
      StampedTimesOrdered(v, created, init);
      assert ([created] + updates)[0] == created;
      assert ([created] + updates)[|updates|] == updates[|updates| - 1];
    }
  }

  /** A Tarefa object, whose setters and lifecycle hooks change its fields in place. */
  class Tarefa {
    var id: Option<int>
    var titulo: Option<string>
    var descricao: Option<string>
    var status: Option<StatusTarefa>
    var dataCriacao: Option<nat>
    var dataAtualizacao: Option<nat>

    function Value(): TarefaValue
      reads this
    {
      TarefaValue(id, titulo, descricao, status, dataCriacao, dataAtualizacao)
    }

    /** Tarefa.builder()...build(): an object holding exactly the given field values. */
    constructor Build(v: TarefaValue)
      ensures Value() == v
    {
      id, titulo, descricao, status := v.id, v.titulo, v.descricao, v.status;
      dataCriacao, dataAtualizacao := v.dataCriacao, v.dataAtualizacao;
    }

    /** @PrePersist: both timestamps become the current time; nothing else changes. */
    method OnCreate(now: nat)
      modifies this
      ensures Value() == Created(old(Value()), now)
    {
      dataCriacao := Some(now);
      dataAtualizacao := Some(now);
    }

    /** @PreUpdate: only the update timestamp is refreshed. */
    method OnUpdate(now: nat)
      modifies this
      ensures Value() == Touched(old(Value()), now)
    {
      dataAtualizacao := Some(now);
    }
  }
}
