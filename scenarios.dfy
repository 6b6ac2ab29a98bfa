/**
 * Request sequences against one store, proved from the handlers' contracts
 * alone: the behaviour a client sees across several calls.
 */
module Scenarios {
  import opened Wrappers
  import opened Text
  import opened IdParsing
  import opened Validation
  import opened Store

  /** Deleting twice: the first DELETE of an existing task answers 200, the
      second 404 "Task not found"; a first answer that is an error repeats. */
  method DeleteTwice(store: TaskStore, idText: string) returns (first: Response, second: Response)
    requires store.Valid()
    modifies store
    ensures store.Valid()
    ensures first.code == 200 ==> second == Response(404, ErrorMessage(NotFound))
    ensures first.code != 200 ==> second == first
  {
    first := store.Delete(idText);
    second := store.Delete(idText);
  }

  /** An id freed by DELETE is never handed out again by POST. */
  method DeleteThenCreate(store: TaskStore, idText: string, body: Body, tick: nat)
    returns (deleted: Response, created: Response)
    requires store.Valid()
    modifies store
    ensures store.Valid()
    ensures deleted.code == 200 && created.code == 201 ==>
              deleted.body.Deletion? && created.body.TaskRecord? &&
              created.body.task.id != deleted.body.id
  {
    deleted := store.Delete(idText);
    created := store.Create(body, tick);
  }

  /** Create, mark done, list the done tasks, delete, fetch again. */
  method CreatePatchListDeleteGet(store: TaskStore, tick: nat)
    returns (created: Response, patched: Response, listed: Response, deleted: Response, fetched: Response)
    requires store.Valid()
    modifies store
    ensures created.code == 201 && created.body.TaskRecord? && created.body.task.status == Active
    ensures patched.code == 200 && patched.body.TaskRecord? && patched.body.task.status == Done
    ensures patched.body.task.id == created.body.task.id
    ensures listed.code == 200 && listed.body.TaskList? && patched.body.task in listed.body.tasks
    ensures deleted == Response(200, Deletion(DeletedMessage, created.body.task.id))
    ensures fetched == Response(404, ErrorMessage(NotFound))
  {
    AbsentFieldsDefault("A");
    created := store.Create(map["title" := Str("A")], tick);
    var id := created.body.task.id;
    var idText := IntToString(id);
    ParseIntRoundTrip(id);
    patched := store.PatchStatus(idText, map["status" := Str("done")]);
    listed := store.List(Some("done"), None, None);
    assert patched.body.task in Selection(store.tasks, Some(Done));
    assert patched.body.task in multiset(listed.body.tasks);
    deleted := store.Delete(idText);
    fetched := store.Get(idText);
  }
}
