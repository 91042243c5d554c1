/**
 * The task side panel of src/components/ListPanel.tsx: the pending task
 * text and the selected category are the panel's own state; every handler
 * builds the updated list handed to `onUpdateList` (none when it returns
 * early).
 */
module ListPanel {
  import opened Wrappers
  import opened Text
  import opened Types
  import opened Seqs

  /** The category selector's entry that shows every task. */
  const AllCategories := "All Categories"

  /** `filteredTasks`: every task under "All Categories", else the tasks of
      the selected category; no tasks without a list. */
  function FilteredTasks(current: Option<GuestList>, selected: string): seq<Task>
  {
    if current.None? then []
    else Filter(current.value.tasks, (t: Task) => selected == AllCategories || t.category == Some(selected))
  }

  /** The shown tasks are an order-preserving selection of the list's tasks:
      a task is shown exactly when it belongs to the selected category or
      everything is selected, and "All Categories" shows every task. */
  lemma FilteredTasksMeaning(current: Option<GuestList>, selected: string)
    ensures current.None? ==> FilteredTasks(current, selected) == []
    ensures current.Some? ==> Subsequence(FilteredTasks(current, selected), current.value.tasks)
    ensures current.Some? ==> forall t :: t in FilteredTasks(current, selected) <==>
      t in current.value.tasks && (selected == AllCategories || t.category == Some(selected))
    ensures current.Some? && selected == AllCategories ==> FilteredTasks(current, selected) == current.value.tasks
  {
    if current.Some? {
      FilterMeaning(current.value.tasks, (t: Task) => selected == AllCategories || t.category == Some(selected));
    }
  }

  /** The category a new task is filed under: "General" when every category is shown. */
  function CategoryFor(selected: string): string
  {
    if selected == AllCategories then "General" else selected
  }

  /** `toggleTask`: flips `completed` of the tasks with that id. */
  function ToggleTask(current: Option<GuestList>, taskId: string): Option<GuestList>
  {
    match current
    case None => None
    case Some(list) =>
      Some(list.(tasks := seq(|list.tasks|, i requires 0 <= i < |list.tasks| =>
                                if list.tasks[i].id == taskId then list.tasks[i].(completed := !list.tasks[i].completed)
                                else list.tasks[i])))
  }

  /** Toggling keeps every task in place, flips only the completion of the
      tasks with that id and changes nothing else of the list; toggling
      twice gives back the list. */
  lemma ToggleTaskFrame(current: Option<GuestList>, taskId: string)
    ensures ToggleTask(current, taskId).None? <==> current.None?
    ensures current.Some? ==>
      var list := current.value;
      var l := ToggleTask(current, taskId).value;
      && |l.tasks| == |list.tasks|
      && (forall i :: 0 <= i < |list.tasks| ==>
            l.tasks[i].(completed := list.tasks[i].completed) == list.tasks[i]
            && (l.tasks[i].completed != list.tasks[i].completed <==> list.tasks[i].id == taskId))
      && l.(tasks := list.tasks) == list
  {
  }

  lemma ToggleTaskTwice(current: Option<GuestList>, taskId: string)
    ensures ToggleTask(ToggleTask(current, taskId), taskId) == current
  {
    if current.Some? {
      var list := current.value;
      var l2 := ToggleTask(ToggleTask(current, taskId), taskId).value;
      assert forall i :: 0 <= i < |list.tasks| ==> l2.tasks[i] == list.tasks[i];
      assert l2.tasks == list.tasks;
    }
  }

  /** `deleteTask`. */
  function DeleteTask(current: Option<GuestList>, taskId: string): Option<GuestList>
  {
    match current
    case None => None
    case Some(list) => Some(list.(tasks := Filter(list.tasks, (t: Task) => t.id != taskId)))
  }

  /** Deleting removes exactly the tasks with that id, keeps the others in
      order and changes nothing else of the list. */
  lemma DeleteTaskFrame(current: Option<GuestList>, taskId: string)
    ensures DeleteTask(current, taskId).None? <==> current.None?
    ensures current.Some? ==>
      var l := DeleteTask(current, taskId).value;
      && (forall t :: t in l.tasks <==> t in current.value.tasks && t.id != taskId)
      && Subsequence(l.tasks, current.value.tasks)
      && l.(tasks := current.value.tasks) == current.value
  {
    if current.Some? {
      FilterMeaning(current.value.tasks, (t: Task) => t.id != taskId);
    }
  }

  /** The panel's own state: the task being typed and the selected category. */
  class TaskPanel {
    var newTask: string
    var selectedCategory: string

    constructor()
      ensures newTask == "" && selectedCategory == AllCategories
    {
      newTask := "";
      selectedCategory := AllCategories;
    }

    /** `addTask`: with a list and a non-blank entry, appends an open task
        named by the trimmed entry, filed under the selected category (or
        "General"), and clears the entry; otherwise nothing happens.
        `taskId` is the id the clock provides. */
    method AddTask(current: Option<GuestList>, taskId: string) returns (update: Option<GuestList>)
      modifies this
      ensures current.None? || Trim(old(newTask)) == "" ==> update.None? && unchanged(this)
      ensures current.Some? && Trim(old(newTask)) != "" ==>
        && update == Some(current.value.(tasks := current.value.tasks +
                                           [Task(taskId, Trim(old(newTask)), false, Some(CategoryFor(old(selectedCategory))))]))
        && newTask == "" && selectedCategory == old(selectedCategory)
    {
      if current.None? || Trim(newTask) == "" {
        return None;
      }
      var task := Task(taskId, Trim(newTask), false, Some(CategoryFor(selectedCategory)));
      update := Some(current.value.(tasks := current.value.tasks + [task]));
      newTask := "";
    }

    /** `addCategory`: `answer` is what the prompt returned (None when it
        was dismissed). A non-empty answer is appended to the categories
        (a list without categories starts from none) and becomes the
        selection. */
    method AddCategory(current: Option<GuestList>, answer: Option<string>) returns (update: Option<GuestList>)
      modifies this
      ensures answer.None? || answer.value == "" || current.None? ==> update.None? && unchanged(this)
      ensures answer.Some? && answer.value != "" && current.Some? ==>
        && update == Some(current.value.(categories := Some(Categories(current.value) + [answer.value])))
        && selectedCategory == answer.value && newTask == old(newTask)
    {
      if answer.None? || answer.value == "" || current.None? {
        return None;
      }
      update := Some(current.value.(categories := Some(Categories(current.value) + [answer.value])));
      selectedCategory := answer.value;
    }
  }

  /** The list's categories; none when it has no category list. */
  function Categories(list: GuestList): seq<string>
  {
    if list.categories.Some? then list.categories.value else []
  }

  /** A task added while a category is selected is shown under that
      selection, after the tasks shown before. */
  lemma AddedTaskIsShown(list: GuestList, selected: string, task: Task)
    requires task.category == Some(CategoryFor(selected))
    ensures FilteredTasks(Some(list.(tasks := list.tasks + [task])), selected)
         == FilteredTasks(Some(list), selected) + [task]
  {
    var p := (t: Task) => selected == AllCategories || t.category == Some(selected);
    FilterAppend(list.tasks, [task], p);
  }
}
