# Tarefas: a verified model of the to-do application's core

The application keeps a list of *tarefas* (tasks). Each one has a title, an optional description,
a status (PENDENTE, CONCLUIDA or CANCELADA) and two timestamps. The project models both halves in Dafny.

The Spring back end:
- the `Tarefa` entity and its timestamp hooks;
- the request DTO with its validation annotations and trimming;
- the JPA repository's queries over a table;
- the service's create, read, update and delete operations;
- the search controller's status parsing, title-length guard and complete/cancel transitions;
- the global exception handler that turns each failure into an error envelope.

The React front end:
- the API client's validation, trimming and id/status guards;
- its capped performance-metrics buffer and its error translation;
- the list reducers and the filter/sort of `TaskService.hooks.ts`;
- the `useTasks` pair of displayed and fetched lists;
- the form's validation and submission;
- the list's selection set, confirmation state machine, status cycle and confirmation texts.

Each source file is one module:

| module | file | models |
|---|---|---|
| `Common` | common.dfy | strings: Java and JavaScript trimming, substring search, ASCII case mapping, string order |
| `Entity` | tarefa.dfy | `Tarefa`, `StatusTarefa`, the entity constraints, `onCreate`/`onUpdate` |
| `Dto` | tarefa_dto.dfy | `TarefaDTO`'s constraints, `toEntity`, `fromEntity` |
| `Exceptions` | exceptions.dfy | every failure the handler receives, as one datatype |
| `Repository` | tarefa_repository.dfy | `TarefaRepository`: a class over a map, an id counter and a clock |
| `Service` | tarefa_service.dfy | `TarefaService` |
| `SearchController` | tarefa_search_controller.dfy | `TarefaSearchController` |
| `ExceptionHandler` | global_exception_handler.dfy | `GlobalExceptionHandler` as one total function |
| `TaskTypes` | task_types.dfy | the front end's task records and the list filters they share |
| `TaskApi` | task_service_api.dfy | `TaskService.api.ts` |
| `TaskServiceHooks` | task_service_hooks.dfy | `TaskService.hooks.ts` |
| `UseTasks` | use_tasks.dfy | `hooks/useTasks.ts` |
| `TaskFormHook` | task_form_hooks.dfy | `TaskForm.hooks.ts` |
| `TaskListHooks` | task_list_hooks.dfy | `TaskList.hooks.ts` |
| `TaskListView` | task_list_view.dfy | the logic inside `TaskList.tsx` |

## How state is modelled

Whatever the source changes in place is a class whose methods carry `modifies` clauses:
- the entity (`Entity.Tarefa`);
- the repository table (`Repository.TarefaRepository`);
- the metrics array (`TaskApi.PerformanceLog`);
- the state slots of each React hook (`TaskServiceHooks.TaskStore`, `UseTasks.TasksHook`, `TaskFormHook.TaskFormState`, `TaskListHooks.TaskListState`).

The in-place sort of `useTaskFilter` works on an `array`.

Each state-changing back-end method is proved equal to a specification function of the old state. The repository's is `SaveSpec`; the service's are `CreateSpec`, `UpdateSpec` and `DeleteSpec`; the controller's is `CommandSpec`. The lemmas then state what the source promises about those functions.

The clock is a `nat` field that only `AdvanceClock` moves. The outcome of an awaited network call is a parameter of the method that awaits it.

The back end and the front end disagree on the description limit. The back end (`TarefaDTO`, `Tarefa`) allows 1000 characters, and the front end (`validateTaskData`, `validateForm`) allows 500. The model keeps both bounds, each where its code uses it.

Some behaviours follow from the code as written and are stated as lemmas rather than hidden:
- A title padded with spaces passes the DTO's length check and is then trimmed below the entity's minimum (`Dto.PaddedTitlePassesValidation`).
- The form's length check likewise reads the untrimmed title (`TaskFormHook.PaddedShortTitleSubmitted`).
- `searchTasks` tests the untrimmed term (`UseTasks.PaddedTermMissesTask`).
- `updateTask` allows any status change, and only the PATCH endpoints guard transitions (`Service.UpdateAllowsAnyTransition`).
- Deleting the selection leaves only the last selected id pending (`TaskListHooks.TaskListState.DeleteSelectedTasks`).

## Model

| member | source | states |
|---|---|---|
| Common.Trim | backend/src/main/java/com/example/projeto_test/dto/TarefaDTO.java:27-28 | `String.trim`/`String.prototype.trim`: the result is the input with its leading and trailing white space removed, i.e. a contiguous slice of it with only white space before and after and none at either end of its own; it is empty exactly when the input is all white space |
| Common.TrimLeft | frontend/src/services/TaskService/TaskService.api.ts:127-128 | the leading part dropped is all white space and the result is a suffix of the input starting with a non-space |
| Common.TrimRight | frontend/src/services/TaskService/TaskService.api.ts:127-128 | the trailing part dropped is all white space and the result is a prefix of the input ending with a non-space |
| Common.TrimIdempotent | frontend/src/services/TaskService/TaskService.api.ts:127-128 | trimming twice is trimming once |
| Common.TrimOfTrimmed | backend/src/main/java/com/example/projeto_test/dto/TarefaDTO.java:27-28 | a string with no white space at either end is its own trim |
| Common.TrimPadding | backend/src/main/java/com/example/projeto_test/dto/TarefaDTO.java:27-28 | trimming a trimmed non-empty string padded with white space on both sides gives that string back |
| Common.TrimInside | backend/src/main/java/com/example/projeto_test/buisness/TarefaService.java:130-134 | the trimmed term occurs inside the original string |
| Common.ToUpper | backend/src/main/java/com/example/projeto_test/controller/TarefaSearchController.java:30 | `toUpperCase` keeps the length and leaves no lower-case letter |
| Common.ToLower | frontend/src/services/TaskService/TaskService.hooks.ts:132-136 | `toLowerCase` keeps the length and leaves no upper-case letter |
| Common.ToUpperKeepsUpperCase | backend/src/main/java/com/example/projeto_test/controller/TarefaSearchController.java:30 | a string without lower-case letters, such as "PENDENTE", is its own upper case |
| Common.ToLowerKeepsLowerCase | frontend/src/services/TaskService/TaskService.hooks.ts:132-136 | a string without upper-case letters is its own lower case |
| Common.ToUpperIdempotent | backend/src/main/java/com/example/projeto_test/controller/TarefaSearchController.java:30 | upper-casing twice is upper-casing once |
| Common.ToLowerIdempotent | frontend/src/services/TaskService/TaskService.hooks.ts:132-136 | lower-casing twice is lower-casing once |
| Common.ToUpperIgnoresLowerCase | backend/src/main/java/com/example/projeto_test/controller/TarefaSearchController.java:30 | a lower-cased status upper-cases to the same name as the original |
| Common.NatToString | frontend/src/services/TaskService/TaskService.api.ts:151 | the decimal digits of the id, without leading zeros, whose value is the id |
| Common.IntToStringInjective | frontend/src/services/TaskService/TaskService.api.ts:151 | different integers are rendered as different strings |
| Common.StrLtIrreflexive | frontend/src/services/TaskService/TaskService.hooks.ts:145-146 | no string sorts before itself under JavaScript's `<` on strings |
| Common.StrLtTransitive | frontend/src/services/TaskService/TaskService.hooks.ts:145-146 | JavaScript's `<` on strings is transitive |
| Common.StrLtTotal | frontend/src/services/TaskService/TaskService.hooks.ts:145-146 | of two different strings one is `<` the other, so the comparator orders any two tasks |
| Entity.NameInjective | backend/src/main/java/com/example/projeto_test/infrastructure/entitys/Tarefa.java:53-57 | the three enum constants have different names |
| Entity.ValueOf | backend/src/main/java/com/example/projeto_test/infrastructure/entitys/Tarefa.java:53-57 | `valueOf` returns the constant with exactly that name and fails when no constant has it |
| Entity.TitleViolations | backend/src/main/java/com/example/projeto_test/infrastructure/entitys/Tarefa.java:22-25 | no violation exactly when the title is present, not blank and 3 to 100 characters long; every violation names `titulo` |
| Entity.DescriptionViolations | backend/src/main/java/com/example/projeto_test/infrastructure/entitys/Tarefa.java:27-29 | no violation exactly when the description is null or at most 1000 characters |
| Entity.StatusViolations | backend/src/main/java/com/example/projeto_test/infrastructure/entitys/Tarefa.java:31-34 | no violation exactly when the status is non-null |
| Entity.EntityViolations | backend/src/main/java/com/example/projeto_test/infrastructure/entitys/Tarefa.java:22-34 | bean validation of the entity reports nothing exactly when every constraint holds, and only names the three constrained fields |
| Entity.StampedTimesOrdered | backend/src/main/java/com/example/projeto_test/infrastructure/entitys/Tarefa.java:42-51 | after a creation and any updates at non-decreasing times, dataCriacao is the creation time, dataAtualizacao the last time, creation is not after update, and no other field changed |
| Entity.Tarefa.constructor | backend/src/main/java/com/example/projeto_test/infrastructure/entitys/Tarefa.java:9-13 | the all-arguments builder holds exactly the given fields |
| Entity.Tarefa.OnCreate | backend/src/main/java/com/example/projeto_test/infrastructure/entitys/Tarefa.java:42-46 | both timestamps become the current time and nothing else changes |
| Entity.Tarefa.OnUpdate | backend/src/main/java/com/example/projeto_test/infrastructure/entitys/Tarefa.java:48-51 | only dataAtualizacao changes, to the current time |
| Dto.DtoTitleViolations | backend/src/main/java/com/example/projeto_test/dto/TarefaDTO.java:14-17 | the title is accepted exactly when present, not blank, 3 to 100 characters and made only of letters, numbers, punctuation and `\s` |
| Dto.DtoViolations | backend/src/main/java/com/example/projeto_test/dto/TarefaDTO.java:14-23 | the DTO is valid exactly when the title, description (null or at most 1000) and status (non-null) constraints all hold |
| Dto.ToEntity | backend/src/main/java/com/example/projeto_test/dto/TarefaDTO.java:25-31 | trims title and description, keeps null as null, copies the status (null included) and sets no id or timestamps |
| Dto.TrimOrNullFixesTrimmed | backend/src/main/java/com/example/projeto_test/dto/TarefaDTO.java:27-28 | trim-or-null leaves an already trimmed (or null) text unchanged |
| Dto.RoundTrip | backend/src/main/java/com/example/projeto_test/dto/TarefaDTO.java:25-39 | `fromEntity(toEntity(d))` is `d` with both texts trimmed, is the identity on trimmed DTOs and is idempotent |
| Dto.PaddedTitlePassesValidation | backend/src/main/java/com/example/projeto_test/dto/TarefaDTO.java:15-27 | a title of two spaces and one letter is valid for the DTO, yet `toEntity` makes it one character, which the entity rejects |
| Repository.FilterStatus | backend/src/main/java/com/example/projeto_test/infrastructure/entitys/repository/TarefaRepository.java:14 | keeps exactly the rows with that status |
| Repository.CountStatusIsFilterSize | backend/src/main/java/com/example/projeto_test/infrastructure/entitys/repository/TarefaRepository.java:21 | `countByStatus` equals the size of `findByStatus` |
| Repository.FilterTitle | backend/src/main/java/com/example/projeto_test/infrastructure/entitys/repository/TarefaRepository.java:16-17 | keeps exactly the rows whose title contains the term |
| Repository.InsertNewestFirst | backend/src/main/java/com/example/projeto_test/infrastructure/entitys/repository/TarefaRepository.java:19 | inserting into a newest-first list keeps it newest-first and adds exactly that row |
| Repository.SortNewestFirst | backend/src/main/java/com/example/projeto_test/infrastructure/entitys/repository/TarefaRepository.java:19 | the result is ordered by dataCriacao descending and is a permutation of the input |
| Repository.IdOrderMembers | backend/src/main/java/com/example/projeto_test/infrastructure/entitys/repository/TarefaRepository.java:12 | `findAll` lists exactly the stored rows whose id lies in the range |
| Repository.IdOrderLength | backend/src/main/java/com/example/projeto_test/infrastructure/entitys/repository/TarefaRepository.java:12 | `findAll` lists each stored id once |
| Repository.SaveKeepsInvariant | backend/src/main/java/com/example/projeto_test/infrastructure/entitys/repository/TarefaRepository.java:12 | saving keeps every row complete, keyed by its own id, below the next id and created no later than the clock |
| Repository.SaveNewAssignsFreshId | backend/src/main/java/com/example/projeto_test/infrastructure/entitys/repository/TarefaRepository.java:12 | saving a row without an id succeeds exactly when the entity constraints hold; the row then gets the next, unused id and both timestamps, and on failure the table is unchanged |
| Repository.SaveExistingKeepsCreation | backend/src/main/java/com/example/projeto_test/infrastructure/entitys/repository/TarefaRepository.java:12 | saving a stored row keeps the set of ids and its dataCriacao and sets dataAtualizacao to now |
| Repository.SaveValidStored | backend/src/main/java/com/example/projeto_test/infrastructure/entitys/repository/TarefaRepository.java:12 | a valid save of a stored id replaces only that row |
| Repository.TarefaRepository.constructor | backend/src/main/java/com/example/projeto_test/infrastructure/entitys/repository/TarefaRepository.java:12 | the table starts empty, the first id is 1 and the clock is 0 |
| Repository.TarefaRepository.AdvanceClock | backend/src/main/java/com/example/projeto_test/infrastructure/entitys/Tarefa.java:44 | time only moves forward and the table is untouched |
| Repository.TarefaRepository.FindAllIsTable | backend/src/main/java/com/example/projeto_test/infrastructure/entitys/repository/TarefaRepository.java:12 | `findAll` lists exactly the stored rows and `count` is their number |
| Repository.TarefaRepository.FindByStatusExact | backend/src/main/java/com/example/projeto_test/infrastructure/entitys/repository/TarefaRepository.java:14-21 | `findByStatus` returns exactly the stored rows with that status and `countByStatus` is its size |
| Repository.TarefaRepository.FindByTituloExact | backend/src/main/java/com/example/projeto_test/infrastructure/entitys/repository/TarefaRepository.java:16-17 | `findByTituloContaining` returns exactly the stored rows whose title contains the term |
| Repository.TarefaRepository.OrderedListingIsPermutation | backend/src/main/java/com/example/projeto_test/infrastructure/entitys/repository/TarefaRepository.java:19 | the newest-first listing is a permutation of the table with non-increasing dataCriacao |
| Repository.TarefaRepository.Save | backend/src/main/java/com/example/projeto_test/infrastructure/entitys/repository/TarefaRepository.java:12 | the table, next id and result follow `SaveSpec`; the entity object gets its timestamps from the hook and its generated id |
| Repository.TarefaRepository.DeleteById | backend/src/main/java/com/example/projeto_test/infrastructure/entitys/repository/TarefaRepository.java:12 | only that id is removed, after which it is neither found nor reported as existing |
| Repository.TarefaRepository.DeleteAll | backend/src/main/java/com/example/projeto_test/infrastructure/entitys/repository/TarefaRepository.java:12 | the table is empty and `count` is 0 |
| Service.DefaultStatus | backend/src/main/java/com/example/projeto_test/buisness/TarefaService.java:32-35 | a null status becomes PENDENTE and nothing else changes |
| Service.ApplyPatch | backend/src/main/java/com/example/projeto_test/buisness/TarefaService.java:78-92 | the setters leave the entity equal to the partial update of its old state |
| Service.PatchedKeepsTrimmed | backend/src/main/java/com/example/projeto_test/buisness/TarefaService.java:79-86 | the partial update keeps the id and leaves title and description trimmed or null |
| Service.SaveKeepsTrimmed | backend/src/main/java/com/example/projeto_test/buisness/TarefaService.java:38-39 | saving trimmed texts keeps every stored text trimmed |
| Service.CreateStoresDefaultedStatus | backend/src/main/java/com/example/projeto_test/buisness/TarefaService.java:27-41 | create stores the trimmed texts under a fresh id with PENDENTE when the status is null and the given status otherwise, both timestamps set to now; an invalid entity changes nothing |
| Service.UpdateAbsentIdFails | backend/src/main/java/com/example/projeto_test/buisness/TarefaService.java:72-76 | update of an absent id fails with not-found carrying that id and saves nothing |
| Service.UpdateIsPartial | backend/src/main/java/com/example/projeto_test/buisness/TarefaService.java:69-98 | the title changes only to a non-blank trimmed value, the description is always overwritten (null included), the status only when given; id and dataCriacao are kept |
| Service.UpdateAllowsAnyTransition | backend/src/main/java/com/example/projeto_test/buisness/TarefaService.java:89-92 | update sets any status on any stored task, CONCLUIDA to PENDENTE included |
| Service.DeleteRemovesOnlyThatId | backend/src/main/java/com/example/projeto_test/buisness/TarefaService.java:100-110 | delete of an absent id fails with not-found and changes nothing; otherwise exactly that id is removed |
| Service.TarefaService.constructor | backend/src/main/java/com/example/projeto_test/buisness/TarefaService.java:23-25 | the service works on the given repository |
| Service.TarefaService.CreateTask | backend/src/main/java/com/example/projeto_test/buisness/TarefaService.java:27-41 | result and table follow `CreateSpec` |
| Service.TarefaService.GetTaskById | backend/src/main/java/com/example/projeto_test/buisness/TarefaService.java:55-67 | succeeds exactly when the id is stored, with that row; otherwise not-found carrying the id |
| Service.TarefaService.UpdateTask | backend/src/main/java/com/example/projeto_test/buisness/TarefaService.java:69-98 | result and table follow `UpdateSpec` |
| Service.TarefaService.DeleteTask | backend/src/main/java/com/example/projeto_test/buisness/TarefaService.java:100-110 | result and table follow `DeleteSpec` |
| Service.TarefaService.GetAllTasksIsOrderedTable | backend/src/main/java/com/example/projeto_test/buisness/TarefaService.java:44-53 | every stored task once, newest first |
| Service.TarefaService.GetTasksByStatusExact | backend/src/main/java/com/example/projeto_test/buisness/TarefaService.java:112-122 | exactly the stored tasks with that status |
| Service.TarefaService.GetTasksByTitleExact | backend/src/main/java/com/example/projeto_test/buisness/TarefaService.java:124-140 | a null or blank term gives the empty list; otherwise exactly the stored tasks whose title contains the trimmed term |
| SearchController.ParseStatus | backend/src/main/java/com/example/projeto_test/controller/TarefaSearchController.java:28-38 | succeeds with the constant named by the upper-cased input, otherwise STATUS_INVALID with the raw input as current state |
| SearchController.ParseStatusIgnoresCase | backend/src/main/java/com/example/projeto_test/controller/TarefaSearchController.java:30 | each status parses from its name and from its lower-case name |
| SearchController.GuardRefusesFinalStatuses | backend/src/main/java/com/example/projeto_test/controller/TarefaSearchController.java:65-112 | the guards refuse exactly the terminal statuses, with ALREADY_COMPLETED, CANNOT_COMPLETE_CANCELLED, ALREADY_CANCELLED or CANNOT_CANCEL_COMPLETED as the command and status dictate |
| SearchController.CommandOnAbsentId | backend/src/main/java/com/example/projeto_test/controller/TarefaSearchController.java:63 | complete and cancel on an absent id fail with not-found before any guard and change nothing |
| SearchController.CommandOnFinalStatusChangesNothing | backend/src/main/java/com/example/projeto_test/controller/TarefaSearchController.java:65-79 | on a terminal task both commands fail and leave the table unchanged |
| SearchController.TransitionPatchOnlyChangesStatus | backend/src/main/java/com/example/projeto_test/controller/TarefaSearchController.java:81-85 | the DTO built from a stored task passes title and description through, so the update changes only the status |
| SearchController.CommandFromPendente | backend/src/main/java/com/example/projeto_test/controller/TarefaSearchController.java:81-88 | from PENDENTE, complete stores CONCLUIDA and cancel CANCELADA, with the update time set and nothing else changed |
| SearchController.CommandFollowsNext | backend/src/main/java/com/example/projeto_test/controller/TarefaSearchController.java:59-122 | after either command the stored status is the state machine's next status |
| SearchController.FinalStatusIsAbsorbing | backend/src/main/java/com/example/projeto_test/controller/TarefaSearchController.java:65-112 | no sequence of complete/cancel changes a terminal status |
| SearchController.FirstCommandDecides | backend/src/main/java/com/example/projeto_test/controller/TarefaSearchController.java:59-122 | from PENDENTE the first command fixes the final status for good |
| SearchController.TarefaSearchController.constructor | backend/src/main/java/com/example/projeto_test/controller/TarefaSearchController.java:21-23 | the controller works on the given service |
| SearchController.TarefaSearchController.SearchByStatusExact | backend/src/main/java/com/example/projeto_test/controller/TarefaSearchController.java:25-40 | fails with STATUS_INVALID exactly when no status has the upper-cased name; otherwise exactly the stored tasks with that status |
| SearchController.TarefaSearchController.SearchByTitleExact | backend/src/main/java/com/example/projeto_test/controller/TarefaSearchController.java:42-56 | fails with SEARCH_TOO_SHORT exactly when the trimmed term is under 2 characters; otherwise exactly the stored tasks whose title contains it |
| SearchController.TarefaSearchController.MarkAsCompleted | backend/src/main/java/com/example/projeto_test/controller/TarefaSearchController.java:59-89 | result and table follow the complete command's specification |
| SearchController.TarefaSearchController.CancelTask | backend/src/main/java/com/example/projeto_test/controller/TarefaSearchController.java:92-122 | result and table follow the cancel command's specification |
| ExceptionHandler.LastWins | backend/src/main/java/com/example/projeto_test/exception/GlobalExceptionHandler.java:38-43 | the error map has exactly the fields that have an error |
| ExceptionHandler.LastWinsValue | backend/src/main/java/com/example/projeto_test/exception/GlobalExceptionHandler.java:38-43 | a field's message is its last error's message |
| ExceptionHandler.CollectErrors | backend/src/main/java/com/example/projeto_test/exception/GlobalExceptionHandler.java:63-67 | the loop builds the last-wins map |
| ExceptionHandler.HandleValidation | backend/src/main/java/com/example/projeto_test/exception/GlobalExceptionHandler.java:34-54 | 400 "Validation Error", details keyed by exactly the fields in error |
| ExceptionHandler.HandleConstraintViolation | backend/src/main/java/com/example/projeto_test/exception/GlobalExceptionHandler.java:56-78 | 400 "Constraint Violation", details keyed by exactly the violated properties |
| ExceptionHandler.HandleGeneral | backend/src/main/java/com/example/projeto_test/exception/GlobalExceptionHandler.java:80-93 | 500 with the fixed message and only the exception's simple class name in details |
| ExceptionHandler.HandleNotFound | backend/src/main/java/com/example/projeto_test/exception/GlobalExceptionHandler.java:96-109 | 404 with the exception's message and details exactly `{"id": id}` |
| ExceptionHandler.HandleNotReadable | backend/src/main/java/com/example/projeto_test/exception/GlobalExceptionHandler.java:112-139 | 400: an enum format error gives the enum message with campo, valorRecebido and valoresValidos (a fault when the path is empty); a mapping error gives campo, "root" for an empty path; anything else the generic message and no details |
| ExceptionHandler.HandleTypeMismatch | backend/src/main/java/com/example/projeto_test/exception/GlobalExceptionHandler.java:141-158 | 400 with parametro, valorRecebido and tipoEsperado |
| ExceptionHandler.HandleMethodNotSupported | backend/src/main/java/com/example/projeto_test/exception/GlobalExceptionHandler.java:160-178 | 405 with the received method, the supported ones and the url |
| ExceptionHandler.HandleMediaTypeNotSupported | backend/src/main/java/com/example/projeto_test/exception/GlobalExceptionHandler.java:180-196 | 415 with tipoRecebido ("null" when absent) and tiposSuportados |
| ExceptionHandler.HandleNoHandlerFound | backend/src/main/java/com/example/projeto_test/exception/GlobalExceptionHandler.java:198-214 | 404 with metodo and url |
| ExceptionHandler.HandleMissingParameter | backend/src/main/java/com/example/projeto_test/exception/GlobalExceptionHandler.java:216-232 | 400 with parametro and tipo |
| ExceptionHandler.HandleMissingPathVariable | backend/src/main/java/com/example/projeto_test/exception/GlobalExceptionHandler.java:234-247 | 400 with variavel |
| ExceptionHandler.IntegrityKindOf | backend/src/main/java/com/example/projeto_test/exception/GlobalExceptionHandler.java:256-262 | "duplicate" or "unique" makes a duplicate, which takes precedence; otherwise "foreign key" or "constraint" makes a relationship violation |
| ExceptionHandler.HandleDataIntegrity | backend/src/main/java/com/example/projeto_test/exception/GlobalExceptionHandler.java:249-273 | 409 with tipo DUPLICIDADE, tipo CONSTRAINT or empty details, and the matching message |
| ExceptionHandler.HandleDataConflict | backend/src/main/java/com/example/projeto_test/exception/GlobalExceptionHandler.java:275-294 | 409 with the exception's message; campo and valor present exactly when the field is non-null; a null value with a field is a fault |
| ExceptionHandler.HandleBusinessRule | backend/src/main/java/com/example/projeto_test/exception/GlobalExceptionHandler.java:296-317 | 422; regra present exactly when the rule is non-null and estadoAtual exactly when the current state is |
| ExceptionHandler.Handle | backend/src/main/java/com/example/projeto_test/exception/GlobalExceptionHandler.java:34-317 | every failure gets a response whose body status equals the HTTP status of its kind, except exactly the two faulting cases |
| ExceptionHandler.DuplicateTakesPrecedence | backend/src/main/java/com/example/projeto_test/exception/GlobalExceptionHandler.java:256-262 | a message with both "duplicate" and "constraint" is reported as DUPLICIDADE |
| ExceptionHandler.ValidationKeepsLastMessage | backend/src/main/java/com/example/projeto_test/exception/GlobalExceptionHandler.java:38-43 | of two errors on one field the second is reported |
| TaskTypes.Filter | frontend/src/hooks/useTasks.ts:77-78 | `Array.prototype.filter` keeps exactly the elements that pass, in order |
| TaskTypes.FilterAppend | frontend/src/hooks/useTasks.ts:77-78 | filtering distributes over concatenation, so order is preserved |
| TaskTypes.FilterKeepingAll | frontend/src/hooks/useTasks.ts:77-78 | a filter every element passes returns the list unchanged |
| TaskTypes.WithStatus | frontend/src/hooks/useTasks.ts:77-78 | exactly the elements with that status |
| TaskTypes.Search | frontend/src/hooks/useTasks.ts:86-90 | exactly the elements whose lower-cased title or description contains the lower-cased term |
| TaskTypes.FindById | frontend/src/components/TaskList/TaskList.hooks.ts:46 | `find` returns the first element with that id, and nothing exactly when none has it |
| TaskApi.TitleErrors | frontend/src/services/TaskService/TaskService.api.ts:104-108 | at most one title error; none exactly when not blank and at most 100 characters untrimmed |
| TaskApi.DescriptionErrors | frontend/src/services/TaskService/TaskService.api.ts:110-114 | at most one description error; none exactly when not blank and at most 500 characters untrimmed |
| TaskApi.StatusErrors | frontend/src/services/TaskService/TaskService.api.ts:116-120 | at most one status error; none exactly when the status is one of the three |
| TaskApi.ValidateTaskData | frontend/src/services/TaskService/TaskService.api.ts:101-123 | no errors exactly when all three fields are acceptable; at most three |
| TaskApi.ValidateTaskDataOrder | frontend/src/services/TaskService/TaskService.api.ts:104-120 | errors come in the order title, description, status |
| TaskApi.PaddedTitleRefused | frontend/src/services/TaskService/TaskService.api.ts:106-107 | a 100-character title with one trailing space is refused although its trim fits |
| TaskApi.TransformForApi | frontend/src/services/TaskService/TaskService.api.ts:125-131 | title and description are exactly their trims, the status is kept, and valid data stays valid |
| TaskApi.TransformIdempotent | frontend/src/services/TaskService/TaskService.api.ts:125-131 | transforming twice is transforming once |
| TaskApi.GetTaskById | frontend/src/services/TaskService/TaskService.api.ts:145-154 | refuses a missing, zero or negative id before any request; otherwise a GET of that task's url |
| TaskApi.TaskUrlInjective | frontend/src/services/TaskService/TaskService.api.ts:151 | different ids give different task urls, so a request by id addresses only that task |
| TaskApi.CreateTask | frontend/src/services/TaskService/TaskService.api.ts:156-168 | refuses invalid data with its error list before any request; otherwise POSTs the transformed data to the base url |
| TaskApi.UpdateTask | frontend/src/services/TaskService/TaskService.api.ts:170-186 | refuses a bad id first, then invalid data; otherwise PUTs the transformed data to that task's url |
| TaskApi.DeleteTask | frontend/src/services/TaskService/TaskService.api.ts:188-194 | refuses a missing, zero or negative id before any request; otherwise a DELETE of that task's url |
| TaskApi.GetTasksByStatus | frontend/src/services/TaskService/TaskService.api.ts:196-205 | refuses every status that is not exactly one of the three; otherwise GETs its status url |
| TaskApi.LowerCaseStatusRefused | frontend/src/services/TaskService/TaskService.api.ts:197-199 | the check is case-sensitive: "pendente" is refused |
| TaskApi.KeepLast | frontend/src/services/TaskService/TaskService.api.ts:39-41 | `slice(-n)` keeps the last n elements in order |
| TaskApi.KeepLastAfterPush | frontend/src/services/TaskService/TaskService.api.ts:37-41 | after a push and the cut the new element is last, preceded by the previous most recent ones |
| TaskApi.PerformanceLog.constructor | frontend/src/services/TaskService/TaskService.api.ts:25 | the buffer starts empty |
| TaskApi.PerformanceLog.MeasurePerformance | frontend/src/services/TaskService/TaskService.api.ts:27-44 | records the metric with duration now minus start, and the buffer becomes the last 100 of the old buffer plus it |
| TaskApi.PerformanceLog.Snapshot | frontend/src/services/TaskService/TaskService.api.ts:229-231 | returns the buffer as it is, which never holds more than 100 metrics |
| TaskApi.PerformanceLog.Clear | frontend/src/services/TaskService/TaskService.api.ts:245-247 | the buffer becomes empty |
| TaskApi.OrElse | frontend/src/services/TaskService/TaskService.api.ts:88-95 | `a \|\| b` on strings: an absent or empty text gives the fallback, any other text is kept, so the result is never empty when the fallback is not |
| TaskApi.CreateApiError | frontend/src/services/TaskService/TaskService.api.ts:81-99 | with an object body, message is body.message or "Erro na API" and code is body.error; otherwise message is the error's message or "Erro de conexão"; the message is never empty |
| TaskApi.ClientReadsHandlerEnvelope | frontend/src/services/TaskService/TaskService.api.ts:84-92 | an envelope from the back end's handler reaches the client with its status, error, details and message |
| TaskServiceHooks.AppendTask | frontend/src/services/TaskService/TaskService.hooks.ts:44-48 | the new task is appended and the existing ones are unchanged |
| TaskServiceHooks.ReplaceById | frontend/src/services/TaskService/TaskService.hooks.ts:68-72 | exactly the elements with that id are replaced; the length and the others are unchanged |
| TaskServiceHooks.ReplaceByIdIdempotent | frontend/src/services/TaskService/TaskService.hooks.ts:68-72 | replacing twice is replacing once |
| TaskServiceHooks.RemoveById | frontend/src/services/TaskService/TaskService.hooks.ts:92-96 | removes every element with that id and keeps the rest |
| TaskServiceHooks.RemoveByIdKeepsOrder | frontend/src/services/TaskService/TaskService.hooks.ts:92-96 | removal distributes over concatenation, so order is preserved |
| TaskServiceHooks.RemoveAbsentId | frontend/src/services/TaskService/TaskService.hooks.ts:92-96 | removing an absent id changes nothing |
| TaskServiceHooks.ErrorMessage | frontend/src/services/TaskService/TaskService.hooks.ts:29 | (the same expression serves fetchTasks, createTask, updateTask and deleteTask) an Error the client threw shows its own message; any other thrown value, such as the interceptor's plain ApiError object, shows the operation's fallback |
| TaskServiceHooks.TaskStore.constructor | frontend/src/services/TaskService/TaskService.hooks.ts:7-12 | empty list, not loading, no error, zero counters |
| TaskServiceHooks.TaskStore.Begin | frontend/src/services/TaskService/TaskService.hooks.ts:15-16 | loading on and the error cleared on entry |
| TaskServiceHooks.TaskStore.Fail | frontend/src/services/TaskService/TaskService.hooks.ts:53-58 | on failure loading is off and the error is set |
| TaskServiceHooks.TaskStore.FetchTasks | frontend/src/services/TaskService/TaskService.hooks.ts:14-37 | success stores the fetched list and counters; failure keeps them, sets the error and rethrows; loading ends off |
| TaskServiceHooks.TaskStore.CreateTask | frontend/src/services/TaskService/TaskService.hooks.ts:39-61 | success appends the created task, then a successful refetch replaces the list and the counters; a failed create, or a failed refetch after the append, keeps the counters, and a failed create changes no task |
| TaskServiceHooks.TaskStore.UpdateTask | frontend/src/services/TaskService/TaskService.hooks.ts:63-85 | success replaces that id's element, then a successful refetch replaces the list and the counters; a failed update, or a failed refetch after the replacement, keeps the counters, and a failed update changes no task |
| TaskServiceHooks.TaskStore.DeleteTask | frontend/src/services/TaskService/TaskService.hooks.ts:87-108 | success removes the id, then a successful refetch replaces the list and the counters; a failed delete, or a failed refetch after the removal, keeps the counters, and a failed delete changes no task |
| TaskServiceHooks.Compare | frontend/src/services/TaskService/TaskService.hooks.ts:140-149 | the comparator returns -1, 0 or 1 |
| TaskServiceHooks.CompareMeaning | frontend/src/services/TaskService/TaskService.hooks.ts:140-149 | the comparator is 0 exactly for equal keys and negative exactly when a's key comes first, in ascending order for 'asc' and descending for 'desc' |
| TaskServiceHooks.CompareAntisymmetric | frontend/src/services/TaskService/TaskService.hooks.ts:140-149 | if a sorts after b then b sorts before a |
| TaskServiceHooks.InOrderTotal | frontend/src/services/TaskService/TaskService.hooks.ts:140-149 | the comparator orders any two tasks one way or the other |
| TaskServiceHooks.Selected | frontend/src/services/TaskService/TaskService.hooks.ts:125-137 | keeps exactly the tasks with the status, when one is set, that match the search term, when one is set |
| TaskServiceHooks.InsertedAt | frontend/src/services/TaskService/TaskService.hooks.ts:139-148 | inserting lands the new element just behind the last element it may follow, with every element it may not follow after it |
| TaskServiceHooks.InsertedPermutes | frontend/src/services/TaskService/TaskService.hooks.ts:139-148 | inserting adds the new element and keeps every other one |
| TaskServiceHooks.InsertionSortedPermutes | frontend/src/services/TaskService/TaskService.hooks.ts:139-148 | the insertion sort is a permutation of its input |
| TaskServiceHooks.InsertedOrdered | frontend/src/services/TaskService/TaskService.hooks.ts:139-148 | inserting into an ordered sequence keeps it ordered |
| TaskServiceHooks.InsertionSortedOrdered | frontend/src/services/TaskService/TaskService.hooks.ts:139-148 | the insertion sort orders its result under any total comparator |
| TaskServiceHooks.WithKeyMembers | frontend/src/services/TaskService/TaskService.hooks.ts:139-148 | the tasks kept for a key value are exactly the tasks with that key |
| TaskServiceHooks.TiesInOrder | frontend/src/services/TaskService/TaskService.hooks.ts:139-148 | two tasks with equal keys compare as 0, so either may come first |
| TaskServiceHooks.InsertedKeepsTies | frontend/src/services/TaskService/TaskService.hooks.ts:139-148 | inserting passes only over tasks with another key, so the tasks with each key keep their order |
| TaskServiceHooks.InsertionSortedStable | frontend/src/services/TaskService/TaskService.hooks.ts:139-148 | the sort is stable: for every key value, the tasks with that key come out in their input order |
| TaskServiceHooks.SortInPlace | frontend/src/services/TaskService/TaskService.hooks.ts:139-148 | the array ends as the insertion sort of its old contents, ordered and a permutation of them |
| TaskServiceHooks.InsertLeft | frontend/src/services/TaskService/TaskService.hooks.ts:139-148 | one insertion step turns the first i + 1 cells into the insertion of a[i] into the first i and leaves the rest alone |
| TaskServiceHooks.SortStep | frontend/src/services/TaskService/TaskService.hooks.ts:139-148 | one insertion step extends the sorted prefix by one element of the original |
| TaskServiceHooks.Placed | frontend/src/services/TaskService/TaskService.hooks.ts:139-148 | the cells the swap loop leaves behind are the insertion of a[i] into the prefix |
| TaskServiceHooks.FilterTasks | frontend/src/services/TaskService/TaskService.hooks.ts:123-154 | a permutation of the filtered list, equal to it without sortBy; with it, ordered by the key (reversed for 'desc') and stable: the tasks sharing a key keep their filtered order |
| TaskServiceHooks.AddMetric | frontend/src/services/TaskService/TaskService.hooks.ts:198-200 | at most 100 metrics with the newest last, after the 99 most recent previous ones |
| TaskServiceHooks.AddMetricIsBufferPush | frontend/src/services/TaskService/TaskService.hooks.ts:198-200 | addMetric keeps the same buffer as the API client's push-and-cut |
| UseTasks.ErrorText | frontend/src/hooks/useTasks.ts:27-28 | the server's message when present and non-empty, the fallback otherwise |
| UseTasks.StatusView | frontend/src/hooks/useTasks.ts:73-80 | null shows allTasks; a status shows exactly the tasks with it |
| UseTasks.SearchView | frontend/src/hooks/useTasks.ts:82-92 | a blank term shows allTasks; otherwise exactly the tasks matching the untrimmed lower-cased term |
| UseTasks.PaddedTermMissesTask | frontend/src/hooks/useTasks.ts:86-90 | a task found by "tarefa" is not found by " tarefa" |
| UseTasks.TasksHook.constructor | frontend/src/hooks/useTasks.ts:7-11 | empty lists, loading on, no error, zero counters |
| UseTasks.TasksHook.RefreshTasks | frontend/src/hooks/useTasks.ts:13-32 | success sets tasks and allTasks to the same fetched list; failure keeps them and stores the error; loading ends off |
| UseTasks.TasksHook.CreateTask | frontend/src/hooks/useTasks.ts:34-45 | success returns the server's answer and refreshes: a successful refresh sets both lists and the counters, a failed one keeps them and stores the load error; a failed create returns null with the error stored and nothing else changed |
| UseTasks.TasksHook.UpdateTask | frontend/src/hooks/useTasks.ts:47-58 | success returns the server's answer and refreshes: a successful refresh sets both lists and the counters, a failed one keeps them and stores the load error; a failed update returns null with the error stored and nothing else changed |
| UseTasks.TasksHook.DeleteTask | frontend/src/hooks/useTasks.ts:60-71 | true exactly on success, which refreshes: a successful refresh sets both lists and the counters, a failed one keeps them and stores the load error; a failed delete stores the error and changes nothing else |
| UseTasks.TasksHook.FilterByStatus | frontend/src/hooks/useTasks.ts:73-80 | tasks becomes the status view of allTasks; nothing else changes |
| UseTasks.TasksHook.SearchTasks | frontend/src/hooks/useTasks.ts:82-92 | tasks becomes the search view of allTasks; nothing else changes |
| UseTasks.StatusThenSearch | frontend/src/hooks/useTasks.ts:73-92 | a search after a status filter shows the same as the search alone |
| TaskFormHook.TextError | frontend/src/components/TaskForm/TaskForm.hooks.ts:49-63 | no error exactly when not blank and within the bounds on the untrimmed length; blank first, then too short, then too long |
| TaskFormHook.Validate | frontend/src/components/TaskForm/TaskForm.hooks.ts:46-71 | no error in any field exactly when the form is valid; a status error exactly when none is chosen |
| TaskFormHook.Submitted | frontend/src/components/TaskForm/TaskForm.hooks.ts:125-129 | sends exactly the trims of both texts and the chosen status |
| TaskFormHook.SubmittedPassesClientValidation | frontend/src/components/TaskForm/TaskForm.hooks.ts:121-129 | what a valid form sends passes the API client's validation and its trimming leaves it unchanged |
| TaskFormHook.PaddedShortTitleSubmitted | frontend/src/components/TaskForm/TaskForm.hooks.ts:52-54 | " ab " passes the form and is sent as the two characters "ab" |
| TaskFormHook.CountClass | frontend/src/components/TaskForm/TaskForm.hooks.ts:37-44 | danger at 90% of the limit or more, normal below 70%, warning between |
| TaskFormHook.CountClassMonotonic | frontend/src/components/TaskForm/TaskForm.hooks.ts:37-44 | a longer text never gets a lower level |
| TaskFormHook.TitleCountThresholds | frontend/src/components/TaskForm/TaskForm.hooks.ts:37-44 | for the title, 90 is danger and 89 warning; 70 is warning and 69 normal |
| TaskFormHook.LoadedForm | frontend/src/components/TaskForm/TaskForm.hooks.ts:15-30 | the edited task's values, or empty texts with PENDENTE |
| TaskFormHook.TaskFormState.constructor | frontend/src/components/TaskForm/TaskForm.hooks.ts:6-30 | the loaded values with no errors and not saving |
| TaskFormHook.TaskFormState.Load | frontend/src/components/TaskForm/TaskForm.hooks.ts:15-30 | the form takes the edited task's values or the defaults, with errors cleared |
| TaskFormHook.TaskFormState.ValidateForm | frontend/src/components/TaskForm/TaskForm.hooks.ts:46-71 | stores the errors and returns true exactly when there are none |
| TaskFormHook.TaskFormState.ChangeText | frontend/src/components/TaskForm/TaskForm.hooks.ts:73-101 | the field takes the value and only its own error is cleared |
| TaskFormHook.TaskFormState.ChangeStatus | frontend/src/components/TaskForm/TaskForm.hooks.ts:103-116 | the status takes the value and only its error is cleared |
| TaskFormHook.TaskFormState.Submit | frontend/src/components/TaskForm/TaskForm.hooks.ts:118-141 | an invalid form sends nothing; a valid one sends the trimmed data, closes only after a successful save and ends not saving |
| TaskFormHook.TaskFormState.ResetForm | frontend/src/components/TaskForm/TaskForm.hooks.ts:143-151 | empty texts, PENDENTE, no errors, not saving |
| TaskListHooks.ListStats | frontend/src/components/TaskList/TaskList.hooks.ts:24-31 | total is the list's length and each counter the number of tasks with that status |
| TaskListHooks.WithStatusCount | frontend/src/components/TaskList/TaskList.hooks.ts:27-29 | a status counter counts the first task, then the rest |
| TaskListHooks.StatsAddUp | frontend/src/components/TaskList/TaskList.hooks.ts:24-31 | the three counters add up to at most the total, and to exactly the total when every status is known |
| TaskListHooks.RemoveId | frontend/src/components/TaskList/TaskList.hooks.ts:84 | `Set.delete`: every other id stays, without duplicates |
| TaskListHooks.Toggle | frontend/src/components/TaskList/TaskList.hooks.ts:80-90 | flips the membership of that id only and keeps the set free of duplicates |
| TaskListHooks.ToggleTwice | frontend/src/components/TaskList/TaskList.hooks.ts:80-90 | toggling twice gives the same set back |
| TaskListHooks.ToggleTwiceUnselected | frontend/src/components/TaskList/TaskList.hooks.ts:80-90 | toggling an unselected id twice gives the same sequence back |
| TaskListHooks.RemoveAppended | frontend/src/components/TaskList/TaskList.hooks.ts:83-86 | removing an id just added restores the set |
| TaskListHooks.AddAll | frontend/src/components/TaskList/TaskList.hooks.ts:93 | `new Set(ids)` holds exactly those ids, without duplicates |
| TaskListHooks.InvocationOf | frontend/src/components/TaskList/TaskList.hooks.ts:61-65 | a delete calls onDelete with the id; a status change calls onStatusChange only with a non-empty new status |
| TaskListHooks.TaskListState.constructor | frontend/src/components/TaskList/TaskList.hooks.ts:15-22 | no loading entries, no selection, modal closed, nothing pending |
| TaskListHooks.TaskListState.HandleDelete | frontend/src/components/TaskList/TaskList.hooks.ts:40-43 | always records a pending delete and opens the modal |
| TaskListHooks.TaskListState.HandleStatusChange | frontend/src/components/TaskList/TaskList.hooks.ts:45-51 | records a pending change and opens the modal exactly when a listed task has that id and another status |
| TaskListHooks.TaskListState.StartConfirm | frontend/src/components/TaskList/TaskList.hooks.ts:53-65 | without a pending action nothing happens; otherwise the item is marked deleting or updating and the callback is chosen |
| TaskListHooks.TaskListState.FinishConfirm | frontend/src/components/TaskList/TaskList.hooks.ts:68-72 | the item is idle, the modal closed and nothing pending |
| TaskListHooks.TaskListState.ConfirmAction | frontend/src/components/TaskList/TaskList.hooks.ts:53-73 | does nothing without a pending action; otherwise, whatever the callback did, ends with that item idle, the modal closed and nothing pending |
| TaskListHooks.TaskListState.CancelAction | frontend/src/components/TaskList/TaskList.hooks.ts:75-78 | closes the modal and clears the pending action, leaving loading states alone |
| TaskListHooks.TaskListState.ToggleTaskSelection | frontend/src/components/TaskList/TaskList.hooks.ts:80-90 | the selection is toggled at that id and nothing else changes |
| TaskListHooks.TaskListState.SelectAllTasks | frontend/src/components/TaskList/TaskList.hooks.ts:92-94 | the selection is exactly the listed ids |
| TaskListHooks.TaskListState.ClearSelection | frontend/src/components/TaskList/TaskList.hooks.ts:96-98 | the selection is empty |
| TaskListHooks.TaskListState.DeleteSelectedTasks | frontend/src/components/TaskList/TaskList.hooks.ts:100-104 | with a selection, the last selected id is the pending delete and the modal is open; without one nothing changes |
| TaskListHooks.TruncateText | frontend/src/components/TaskList/TaskList.hooks.ts:128-131 | unchanged when it fits; otherwise exactly the trim of the first max characters followed by "...", at most max + 3 characters long |
| TaskListHooks.PreviewBounds | frontend/src/components/TaskList/TaskList.hooks.ts:133-139 | previews are at most 53 and 123 characters |
| TaskListHooks.FinalStatusIsTerminal | frontend/src/components/TaskList/TaskList.hooks.ts:217-219 | the final statuses are exactly the back end's terminal ones |
| TaskListHooks.IsFinalStatus | frontend/src/components/TaskList/TaskList.hooks.ts:217-219 | a status is final exactly when it is one of the three known statuses and not PENDENTE |
| TaskListHooks.StatusClass | frontend/src/components/TaskList/TaskList.hooks.ts:213-215 | "status-" followed by the lower-cased status |
| TaskListView.IndexOf | frontend/src/components/TaskList/TaskList.tsx:63 | `indexOf`: the first position, or -1 exactly when absent |
| TaskListView.NextStatus | frontend/src/components/TaskList/TaskList.tsx:61-67 | the next status is always one of the three |
| TaskListView.CycleOrder | frontend/src/components/TaskList/TaskList.tsx:61-67 | PENDENTE to CONCLUIDA to CANCELADA to PENDENTE |
| TaskListView.CycleReturns | frontend/src/components/TaskList/TaskList.tsx:62-65 | three presses bring a known status back |
| TaskListView.UnknownStatusCyclesToPendente | frontend/src/components/TaskList/TaskList.tsx:63-65 | an unknown status goes to PENDENTE |
| TaskListView.StatusLabel | frontend/src/components/TaskList/TaskList.tsx:212-216 | PENDENTE, CONCLUIDA and CANCELADA are labelled "Pendente", "Concluída" and "Cancelada"; any other status gives "undefined" |
| TaskListView.ConfirmMessage | frontend/src/components/TaskList/TaskList.tsx:203-222 | empty exactly without a pending action, when no listed task has its id, or for a status change without a new status |
| TaskListView.DeleteMessageNamesTitle | frontend/src/components/TaskList/TaskList.tsx:209-210 | the delete question quotes the title of that task |
| TaskListView.ChangeMessageNamesTitleAndLabel | frontend/src/components/TaskList/TaskList.tsx:212-219 | the status-change question quotes the title and names the new status's label |
| TaskListView.ItemBusyDuringAction | frontend/src/components/TaskList/TaskList.tsx:238 | an item is loading while its entry is deleting or updating, idle after, and other items are unaffected |

## Left out

- HTTP wiring: `TarefaController` only chooses 201/200/204 and is not part of this model. Spring annotations, `@Transactional`, CORS and logging are out, and so are all `console` and `log` calls.
- `estatiscaController.java` does not compile and is not part of this model.
- `TarefaResponseDTO.java` and `ErrorResponse.java` are records, and `fromEntity` copies the fields. `BusinessRuleException`, `DataConflictException` and `TarefaNotFoundException` are constructors of `Exceptions.Failure`.
- Repository.FilterTitle: the SQL `LIKE` treats `%` and `_` in the term as wildcards and follows the database's collation. The model matches the term as a literal, case-sensitive substring.
- Dto.DtoTitleViolations: the `\p{L}`, `\p{N}` and `\p{P}` classes are a predicate parameter, not the Unicode tables.
- Common.ToUpper and Common.ToLower map ASCII letters only. There is no Unicode case mapping, so letters outside ASCII keep their case.
- Entity.TitleViolations, Entity.DescriptionViolations, Dto.DtoTitleViolations, TaskApi.TitleErrors, TaskApi.DescriptionErrors, TaskFormHook.TextError, TaskFormHook.CountClass, TaskListHooks.TruncateText, SearchController.TarefaSearchController.SearchByTitle, SearchController.TarefaSearchController.SearchByTitleExact, Common.StrLt: a model string is a sequence of Unicode code points, while Java's `length()`, `@Size`, `substring` and `compareTo` and JavaScript's `.length`, `substring` and `<` work on UTF-16 code units. These members agree with the source for text within the Basic Multilingual Plane. A character outside it (an emoji, say) counts once here and twice in the source, and code-point order can differ from code-unit order there.
- ExceptionHandler.HandleConstraintViolation, ExceptionHandler.HandleValidation, Dto.DtoViolations, Entity.EntityViolations: the violations come from a `HashSet`, whose iteration order is unspecified. The model takes them as a sequence in a given order, so which message wins for a field is stated only for that order.
- ExceptionHandler.Handle: only the two null or empty accesses in the handlers (a null `value` with a field, and an empty path on an enum format error) are modelled as faults. Other null accessors in Spring's exceptions are assumed non-null.
- Service.TarefaService.UpdateTask, SearchController.CommandFromPendente, SearchController.TarefaSearchController.MarkAsCompleted, SearchController.TarefaSearchController.CancelTask: in the source, `updateTask` runs inside the class-level `@Transactional` (TarefaService.java:18), so `@PreUpdate` and entity validation run only when the transaction commits, after the response has been built. Three answers therefore differ from the model. (a) The returned record carries the previous `dataAtualizacao`; the model returns the new stamp. (b) A title that passes `@Valid` but trims below 3 characters (Dto.PaddedTitlePassesValidation) fails at commit inside a `TransactionSystemException`, which only the catch-all handler matches, so the source answers 500 "Internal Server Error" where the model answers 400 "Constraint Violation". (c) An update that changes no field is not flushed, so `dataAtualizacao` keeps its value; the model stamps it.
- Repository.TarefaRepository.Save: Hibernate's merge of detached entities, flush timing and exceptions raised at commit are not modelled. A save validates, stamps and stores at once.
- Clocks (`LocalDateTime.now`, `new Date()`, `performance.now()`) are parameters or the repository's `clock` field.
- TaskApi.PerformanceLog.MeasurePerformance: the duration is an integer difference, not the floating-point one `performance.now()` gives.
- `getAverageResponseTime` and `getErrorRate` are left out, in both the API client and `useApiMetrics`, because they are floating-point averages.
- axios and its interceptors are left out. An interceptor's only effect modelled is the metric push.
- TaskApi.IdValid: ids are integers. A JavaScript `number` may be fractional, and `!id || id <= 0` lets 1.5 through to the url ".../1.5". Ids come from the back end's `Long`, so the model does not represent such values.
- `getAllTasks` in the API client is an unguarded GET and is not modelled.
- `getTaskStats` (a `Promise.all` with a catch) and `testApiConnection` are network code. The fetched counters are a parameter of `FetchTasks` and `RefreshTasks`.
- `transformTaskFromApi` copies every field and is the identity here.
- `useConnectionStatus` (online/offline listeners) and `useTaskAnimations` (timers) are left out, along with `formatDate` and `getRelativeTime` (date arithmetic and locale formatting).
- `handleEdit` only forwards its argument. `hasTasks` and `hasSelectedTasks` are length tests used inline.
- Concurrency is not modelled: neither the lost-update window between the read and the write in complete/cancel, nor React's batching, re-rendering and stale closures.
- TaskServiceHooks.FilterTasks: `Array.prototype.sort` must be stable (ECMAScript 2019 onwards), but the engine picks the algorithm. The model sorts by insertion. Its contract (ordered, a permutation, tasks with equal keys in their filtered order) determines the result, so any stable sort with this comparator gives the same list.
- TaskListHooks.TaskListState.ConfirmAction: the awaited callback is split into `StartConfirm` (before it) and `FinishConfirm` (the `finally` block). Its outcome is not a parameter because a failure is only logged.
- UseTasks.TasksHook.constructor: the initial stats object has no `canceladas` field. The model starts that counter at 0.
- `UseTasks.Caught` and `TaskServiceHooks.Thrown` abstract what `err.response` and `instanceof Error` see of a thrown value.
- TaskListView.IsItemLoading has no contract of its own; `TaskListView.ItemBusyDuringAction` states what it answers.
- The markup of `TaskForm.tsx`, `TaskList.tsx` and `App.tsx` is left out.
