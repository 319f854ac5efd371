/**
 * TarefaDTO, the request body of the create and update endpoints: its
 * declarative constraints as a predicate and as the list of violations, and
 * the conversions to and from the entity.
 */
module Dto {
  import opened Common
  import opened Entity

  datatype TarefaDTO = TarefaDTO(titulo: Option<string>, descricao: Option<string>, status: Option<StatusTarefa>)

  /** `\s` of a Java regular expression without UNICODE_CHARACTER_CLASS: [ \t\n\x0B\f\r]. */
  predicate IsRegexSpace(c: char)
  {
    c == ' ' || c == '\t' || c == '\n' || c == '\U{B}' || c == '\U{C}' || c == '\r'
  }

  /**
   * `^[\p{L}\p{N}\p{P}\s]+$`: one or more characters, each a letter, a number,
   * a punctuation mark or a regex space. Whether a character belongs to the
   * Unicode categories L, N or P is the uninterpreted predicate isLNP.
   */
  predicate MatchesTitlePattern(t: string, isLNP: char -> bool)
  {
    |t| >= 1 && forall k :: 0 <= k < |t| ==> isLNP(t[k]) || IsRegexSpace(t[k])
  }

  /**
   * The DTO is valid exactly when its title is non-blank, 3 to 100 characters
   * long before trimming and matches the pattern, its description is null or
   * at most 1000 characters, and its status is not null.
   */
  predicate DtoValid(d: TarefaDTO, isLNP: char -> bool)
  {
    && d.titulo.Some?
    && !IsBlank(Java, d.titulo.value)
    && TITLE_MIN <= |d.titulo.value| <= TITLE_MAX
    && MatchesTitlePattern(d.titulo.value, isLNP)
    && (d.descricao.None? || |d.descricao.value| <= DESCRIPTION_MAX)
    && d.status.Some?
  }

  /** The DTO's title annotations: @NotBlank, @Size(min = 3, max = 100), @Pattern. */
  function DtoTitleViolations(titulo: Option<string>, isLNP: char -> bool): (r: seq<Violation>)
    ensures r == [] <==> titulo.Some? && !IsBlank(Java, titulo.value)
                         && TITLE_MIN <= |titulo.value| <= TITLE_MAX && MatchesTitlePattern(titulo.value, isLNP)
    ensures forall x :: x in r ==> x.field == "titulo"
  {
    (if titulo.None? || IsBlank(Java, titulo.value)
     then [Violation("titulo", "Title is required and cannot be empty")] else [])
    + (if titulo.Some? && !(TITLE_MIN <= |titulo.value| <= TITLE_MAX)
       then [Violation("titulo", "Title must be between 3 and 100 characters")] else [])
    + (if titulo.Some? && !MatchesTitlePattern(titulo.value, isLNP)
       then [Violation("titulo", "Title contains invalid characters")] else [])
  }

  /**
   * The field errors that @Valid reports for the DTO, one per failed
   * annotation. The model lists them in declaration order; the validator
   * returns them as a set whose iteration order is unspecified, so the
   * order seen by a consumer may differ. @Size and @Pattern accept null.
   */
  function DtoViolations(d: TarefaDTO, isLNP: char -> bool): (r: seq<Violation>)
    ensures r == [] <==> DtoValid(d, isLNP)
    ensures forall x :: x in r ==> x.field in {"titulo", "descricao", "status"}
  {
    DtoTitleViolations(d.titulo, isLNP) + DescriptionViolations(d.descricao) + StatusViolations(d.status)
  }

  /** `s != null ? s.trim() : null`. */
  function TrimOrNull(s: Option<string>): Option<string>
  {
    if s.Some? then Some(Trim(Java, s.value)) else None
  }

  /** A string that is null or equal to its own trim. */
  predicate TrimmedOrNull(s: Option<string>)
  {
    s.None? || Trimmed(Java, s.value)
  }

  /** A null or already trimmed string is left as it is by TrimOrNull. */
  lemma TrimOrNullFixesTrimmed(s: Option<string>)
    ensures TrimmedOrNull(s) ==> TrimOrNull(s) == s
  {
    if s.Some? && TrimmedOrNull(s) { TrimOfTrimmed(Java, s.value); }
  }

  /** TarefaDTO.toEntity: title and description trimmed, status copied, no id and no timestamps. */
  function ToEntity(d: TarefaDTO): (v: TarefaValue)
    ensures v.id.None? && v.dataCriacao.None? && v.dataAtualizacao.None?
    ensures v.status == d.status
    ensures TrimmedOrNull(v.titulo) && TrimmedOrNull(v.descricao)
    ensures v.titulo.None? <==> d.titulo.None?
    ensures v.descricao.None? <==> d.descricao.None?
  {
    TarefaValue(None, TrimOrNull(d.titulo), TrimOrNull(d.descricao), d.status, None, None)
  }

  /** TarefaDTO.fromEntity: the title, description and status of the entity. */
  function FromEntity(v: TarefaValue): TarefaDTO
  {
    TarefaDTO(v.titulo, v.descricao, v.status)
  }

  /**
   * The round trip through the entity trims title and description and keeps
   * the status, so it is the identity on a DTO whose strings are already
   * trimmed, and a second round trip changes nothing.
   */
  lemma RoundTrip(d: TarefaDTO)
    ensures FromEntity(ToEntity(d)) == d.(titulo := TrimOrNull(d.titulo), descricao := TrimOrNull(d.descricao))
    ensures TrimmedOrNull(d.titulo) && TrimmedOrNull(d.descricao) ==> FromEntity(ToEntity(d)) == d
    ensures FromEntity(ToEntity(FromEntity(ToEntity(d)))) == FromEntity(ToEntity(d))
  {
    TrimOrNullFixesTrimmed(d.titulo);
    TrimOrNullFixesTrimmed(d.descricao);
    TrimOrNullFixesTrimmed(TrimOrNull(d.titulo));
    TrimOrNullFixesTrimmed(TrimOrNull(d.descricao));
  }

  /**
   * The @Size check reads the untrimmed title, so a title padded with spaces
   * passes validation while the trimmed title that toEntity produces is
   * shorter than the entity's 3-character minimum.
   */
  lemma PaddedTitlePassesValidation(c: char, isLNP: char -> bool)
    requires isLNP(c) && c > ' '
    ensures var d := TarefaDTO(Some([' ', ' ', c]), None, Some(Pendente));
            DtoValid(d, isLNP) && ToEntity(d).titulo == Some([c]) && !EntityConstraints(ToEntity(d))
  {
    var t := [' ', ' ', c];
    TrimOfPadded(c);
    assert !AllSpace(Java, t) by { assert t[2] == c; }
  }

  /** Java's trim of two spaces followed by a non-space c is c alone. */
  lemma TrimOfPadded(c: char)
    requires c > ' '
    ensures Trim(Java, [' ', ' ', c]) == [c]
  {
    assert [' ', ' ', c] == [' ', ' '] + [c] + [];
    TrimPadding(Java, [' ', ' '], [c], []);
  }
}
