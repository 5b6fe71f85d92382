/** The run queue and the wait queues of kernel/sched.c and kernel/uart.c: linked lists that hand the
    nodes of the tasks on to one another. */
module RunQueues {
  import opened Memlayout
  import opened Lists
  import opened Scheduler

  /** Who is where, by task numbers. */
  datatype Places = Places(tasks: seq<Tid>, current: Option<Tid>, waitIn: seq<Tid>, waitOut: seq<Tid>)

  class Queues {
    const tasks: List<Tid>
    const waitIn: List<Tid>
    const waitOut: List<Tid>
    /** The node of the current task; while the task runs it is in no list. */
    var currentNode: Node?<Tid>
    ghost var Repr: set<object>

    ghost predicate Valid()
      reads this, Repr
    {
      && {this, tasks, waitIn, waitOut} <= Repr && tasks != waitIn && waitIn != waitOut && waitOut != tasks
      && (forall x | x in tasks.nodes :: x in Repr) && (forall x | x in waitIn.nodes :: x in Repr)
      && (forall x | x in waitOut.nodes :: x in Repr)
      && tasks.Valid() && waitIn.Valid() && waitOut.Valid()
      && (currentNode != null ==> currentNode in Repr && currentNode.list == null && currentNode.next == null)
    }

    ghost function Now(): Places
      requires Valid()
      reads this, Repr
    {
      Places(tasks.Values(), if currentNode == null then None else Some(currentNode.value), waitIn.Values(), waitOut.Values())
    }

    /** No node is in two places. */
    lemma Separate()
      requires Valid()
      ensures forall x | x in tasks.nodes :: x !in waitIn.nodes && x !in waitOut.nodes && x != currentNode
      ensures forall x | x in waitIn.nodes :: x !in tasks.nodes && x !in waitOut.nodes && x != currentNode
      ensures forall x | x in waitOut.nodes :: x !in tasks.nodes && x !in waitIn.nodes && x != currentNode
      ensures tasks.last != null ==> tasks.last in tasks.nodes
      ensures waitIn.last != null ==> waitIn.last in waitIn.nodes
      ensures waitOut.last != null ==> waitOut.last in waitOut.nodes
    {
      Apart(tasks, waitIn);
      Apart(tasks, waitOut);
      Apart(waitIn, waitOut);
      Apart(waitIn, tasks);
      Apart(waitOut, tasks);
      Apart(waitOut, waitIn);
    }

    lemma Members(node: Node?<Tid>, rest: seq<Node<Tid>>)
      ensures node != null ==> node in [node] + rest && forall x | x in rest :: x in [node] + rest
    {
    }

    lemma Joined(a: seq<Node<Tid>>, b: seq<Node<Tid>>)
      ensures forall x | x in a + b :: x in a || x in b
    {
    }

    /** A node in no list may be pushed on any. */
    lemma Pushable(list: List<Tid>, node: Node<Tid>)
      requires list.Valid() && node.list == null && node.next == null
      ensures list.CanPush(node)
    {
    }

    /** sched_init and list_init of the wait queues. */
    constructor ()
      ensures Valid() && this in Repr && fresh(Repr) && Now() == Places([], None, [], [])
    {
      tasks := new List<Tid>();
      waitIn := new List<Tid>();
      waitOut := new List<Tid>();
      currentNode := null;
      new;
      Repr := {this, tasks, waitIn, waitOut};
    }

    /** do_schedule, up to the jump into the task. Without a task the processor goes idle. */
    method DoSchedule() returns (idle: bool)
      requires Valid() && currentNode == null
      modifies Repr
      ensures Valid() && Repr == old(Repr) && (idle <==> old(Now().tasks) == [])
      ensures idle ==> Now() == old(Now())
      ensures !idle ==> Now() == old(Now()).(tasks := old(Now()).tasks[1..], current := Some(old(Now()).tasks[0]))
    {
      Separate();
      hide List.Links, List.Valid, List.Values;
      currentNode := tasks.Shift();
      idle := currentNode == null;
      waitIn.Spared();
      waitOut.Spared();
      Members(currentNode, tasks.nodes);
    }

    /** schedule_next, up to the call of schedule. */
    method ScheduleNext()
      requires Valid() && currentNode != null
      modifies Repr
      ensures Valid() && Repr == old(Repr)
      ensures Now() == old(Now()).(tasks := old(Now()).tasks + [old(Now()).current.value], current := None)
    {
      Separate();
      Pushable(tasks, currentNode);
      hide List.Links;
      tasks.Push(currentNode);
      currentNode := null;
    }

    /** wait on `wait_in`, up to the call of schedule. */
    method WaitIn()
      requires Valid() && currentNode != null
      modifies Repr
      ensures Valid() && Repr == old(Repr)
      ensures Now() == old(Now()).(waitIn := old(Now()).waitIn + [old(Now()).current.value], current := None)
    {
      Separate();
      Pushable(waitIn, currentNode);
      hide List.Links;
      waitIn.Push(currentNode);
      currentNode := null;
    }

    /** wait on `wait_out`. */
    method WaitOut()
      requires Valid() && currentNode != null
      modifies Repr
      ensures Valid() && Repr == old(Repr)
      ensures Now() == old(Now()).(waitOut := old(Now()).waitOut + [old(Now()).current.value], current := None)
    {
      Separate();
      Pushable(waitOut, currentNode);
      hide List.Links;
      waitOut.Push(currentNode);
      currentNode := null;
    }

    /** wakeup of `wait_in`. */
    method WakeupIn()
      requires Valid()
      modifies Repr
      ensures Valid() && Repr == old(Repr) && Now() == old(Now()).(tasks := old(Now()).tasks + old(Now()).waitIn, waitIn := [])
    {
      Separate();
      hide List.Links, List.Valid, List.Values;
      Wakeup(waitIn, tasks);
      waitOut.Spared();
      Joined(old(tasks.nodes), old(waitIn.nodes));
    }

    /** wakeup of `wait_out`. */
    method WakeupOut()
      requires Valid()
      modifies Repr
      ensures Valid() && Repr == old(Repr) && Now() == old(Now()).(tasks := old(Now()).tasks + old(Now()).waitOut, waitOut := [])
    {
      Separate();
      hide List.Links, List.Valid, List.Values;
      Wakeup(waitOut, tasks);
      waitIn.Spared();
      Joined(old(tasks.nodes), old(waitOut.nodes));
    }

    /** The queueing of a new task in task_init_sched. */
    method Start(child: Tid)
      requires Valid()
      modifies Repr
      ensures Valid() && old(Repr) <= Repr && fresh(Repr - old(Repr)) && Now() == old(Now()).(tasks := old(Now()).tasks + [child])
    {
      hide List.Links, Valid, Now;
      var node := new Node<Tid>(child);
      PushNew(node);
    }

    method PushNew(node: Node<Tid>)
      requires Valid() && node !in Repr && node.list == null && node.next == null
      modifies Repr, node
      ensures Valid() && Repr == old(Repr) + {node} && Now() == old(Now()).(tasks := old(Now()).tasks + [old(node.value)])
    {
      Separate();
      Pushable(tasks, node);
      hide List.Links, List.Valid, List.Values, List.CanPush;
      tasks.Push(node);
      waitIn.Spared();
      waitOut.Spared();
      Joined(old(tasks.nodes), [node]);
      Repr := Repr + {node};
    }

    /** Who the current task is. */
    lemma CurrentIs()
      requires Valid()
      ensures Now().current == if currentNode == null then None else Some(currentNode.value)
    {
    }

    /** What task_destroy does to the queues: list_remove of the current node, which is in no list. */
    method Quit()
      requires Valid() && currentNode != null
      modifies Repr
      ensures Valid() && Repr == old(Repr) && Now() == old(Now()).(current := None)
    {
      hide List.Links;
      tasks.Remove(currentNode, 0);
      currentNode := null;
    }
  }
}
